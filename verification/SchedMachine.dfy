/**
 The scheduler as a state machine: one step per section that holds ptable.lock.
 The run queues are the lists that the links of RunQueue stand for.
 */
module SchedMachine {
  import opened Ring
  import opened RunQueue

  datatype Table = Table(procs: seq<Proc>, rings: seq<seq<int>>, cpus: seq<int>, nextpid: int)

  datatype Step =
    | Alloc(p: int)                  // allocproc takes an UNUSED slot
    | Abandon(p: int)                // allocproc or fork gives the slot back
    | Adopt(p: int, parent: int)     // fork sets np->parent
    | Start(p: int, prio: nat)       // userinit, fork
    | Dispatch(c: int)               // scheduler
    | Yield(c: int)
    | Sleep(c: int, chan: int)
    | Wakeup(chan: int)
    | Exit(c: int, status: int, init: int)
    | Reap(p: int)                   // wait
    | Kill(p: int)
    | SetPrio(p: int, prio: nat)

  /** The channel on which a process sleeps in wait. */
  function ProcChan(p: int): int {
    p + 1
  }

  predicate Slot(t: Table, p: int) {
    0 <= p < |t.procs|
  }

  ghost predicate Shaped(t: Table) {
    && |t.procs| == NPROC && |t.rings| == 2
    && forall p :: 0 <= p < |t.procs| ==> t.procs[p].priority < 2
  }

  /** The processor c runs a process. */
  predicate Busy(t: Table, c: int) {
    0 <= c < |t.cpus| && Slot(t, t.cpus[c])
  }

  /** Position of p in a list. */
  function IndexOf(r: seq<int>, p: int): (k: nat)
    requires p in r
    ensures k < |r| && r[k] == p
  {
    if r[0] == p then 0 else 1 + IndexOf(r[1..], p)
  }

  function SetProc(t: Table, p: int, proc: Proc): Table
    requires Slot(t, p)
  {
    t.(procs := t.procs[p := proc])
  }

  /** `p->state = RUNNABLE; enqueue(p)` */
  ghost function MakeRunnable(t: Table, p: int): (t': Table)
    requires Shaped(t) && Slot(t, p)
    ensures Shaped(t')
  {
    var q := t.procs[p].priority;
    SetProc(t, p, t.procs[p].(state := RUNNABLE)).(rings := t.rings[q := t.rings[q] + [p]])
  }

  /** What waking may change: sleeping processes become runnable at the end of their queue. */
  ghost predicate Woken(t: Table, t': Table) {
    && |t'.procs| == |t.procs| && |t'.rings| == |t.rings| && t'.cpus == t.cpus && t'.nextpid == t.nextpid
    && (forall p :: 0 <= p < |t.procs| ==> WokenProc(t.procs[p], t'.procs[p]))
    && (forall q :: 0 <= q < |t.rings| ==> t.rings[q] <= t'.rings[q])
  }

  predicate WokenProc(a: Proc, b: Proc) {
    b == a || (a.state == SLEEPING && b == a.(state := RUNNABLE))
  }

  /** `wakeup1` from slot i on. */
  ghost function WakeFrom(t: Table, chan: int, i: nat): (t': Table)
    requires Shaped(t)
    ensures Shaped(t') && Woken(t, t')
    decreases |t.procs| - i
  {
    if i >= |t.procs| then t
    else if t.procs[i].state == SLEEPING && t.procs[i].chan == chan then WakeFrom(MakeRunnable(t, i), chan, i + 1)
    else WakeFrom(t, chan, i + 1)
  }

  /** Handing children over changes parents, and may wake init. */
  ghost predicate Disowned(t: Table, t': Table) {
    && |t'.procs| == |t.procs| && |t'.rings| == |t.rings| && t'.cpus == t.cpus && t'.nextpid == t.nextpid
    && (forall p :: 0 <= p < |t.procs| ==> WokenProc(t.procs[p].(parent := t'.procs[p].parent), t'.procs[p]))
    && (forall q :: 0 <= q < |t.rings| ==> t.rings[q] <= t'.rings[q])
  }

  /** One iteration of the loop of exit that hands abandoned children to init. */
  ghost function DisownOne(t: Table, cur: int, init: int, i: nat): (t': Table)
    requires Shaped(t) && i < |t.procs|
    ensures Shaped(t') && Disowned(t, t')
  {
    if t.procs[i].parent == cur then
      var t1 := SetProc(t, i, t.procs[i].(parent := init));
      if t1.procs[i].state == ZOMBIE then WakeFrom(t1, ProcChan(init), 0) else t1
    else t
  }

  /** That loop from slot i on. */
  ghost function Disown(t: Table, cur: int, init: int, i: nat): (t': Table)
    requires Shaped(t)
    ensures Shaped(t') && Disowned(t, t')
    decreases |t.procs| - i
  {
    if i >= |t.procs| then t else Disown(DisownOne(t, cur, init, i), cur, init, i + 1)
  }

  /** Taking p out of its queue, wherever it is. */
  ghost function Unqueue(t: Table, p: int): (t': Table)
    requires Shaped(t) && Slot(t, p) && p in t.rings[t.procs[p].priority]
    ensures Shaped(t')
  {
    var q := t.procs[p].priority;
    t.(rings := t.rings[q := Remove(t.rings[q], IndexOf(t.rings[q], p))])
  }

  /** The queue the scheduler takes the next process from. */
  function NextQueue(t: Table): nat
    requires |t.rings| == 2
  {
    if t.rings[HI_PRIO] != [] then HI_PRIO else NORM_PRIO
  }

  ghost predicate Enabled(t: Table, step: Step)
    requires Shaped(t)
  {
    match step
    case Alloc(p) => Slot(t, p) && t.procs[p].state == UNUSED
    case Abandon(p) => Slot(t, p) && t.procs[p].state == EMBRYO
    case Adopt(p, parent) =>
      Slot(t, p) && t.procs[p].state == EMBRYO && Slot(t, parent) && t.procs[parent].state == RUNNING
    case Start(p, prio) => Slot(t, p) && t.procs[p].state == EMBRYO && prio < 2
    case Dispatch(c) =>
      && 0 <= c < |t.cpus| && t.cpus[c] == NULL
      && t.rings[NextQueue(t)] != [] && Slot(t, t.rings[NextQueue(t)][0])
    case Yield(c) => Busy(t, c)
    case Sleep(c, chan) => Busy(t, c)
    case Wakeup(chan) => true
    case Exit(c, status, init) => Busy(t, c) && t.cpus[c] != init
    case Reap(p) => Slot(t, p) && t.procs[p].state == ZOMBIE
    case Kill(p) => Slot(t, p)
    case SetPrio(p, prio) =>
      && Slot(t, p) && t.procs[p].state != UNUSED && prio < 2
      && (t.procs[p].state == RUNNABLE ==> p in t.rings[t.procs[p].priority])
  }

  ghost function DoDispatch(t: Table, c: int): Table
    requires Shaped(t) && Enabled(t, Dispatch(c))
  {
    var q := NextQueue(t);
    var p := t.rings[q][0];
    SetProc(t, p, t.procs[p].(state := RUNNING, chan := 0)).(
      rings := t.rings[q := Remove(t.rings[q], 0)], cpus := t.cpus[c := p])
  }

  ghost function DoExit(t: Table, c: int, status: int, init: int): Table
    requires Shaped(t) && Busy(t, c)
  {
    var cur := t.cpus[c];
    var t1 := Disown(WakeFrom(t, ProcChan(t.procs[cur].parent), 0), cur, init, 0);
    SetProc(t1, cur, t1.procs[cur].(state := ZOMBIE, status := status)).(cpus := t1.cpus[c := NULL])
  }

  ghost function DoSetPrio(t: Table, p: int, prio: nat): Table
    requires Shaped(t) && Enabled(t, SetPrio(p, prio))
  {
    if t.procs[p].priority == prio then t
    else if t.procs[p].state == RUNNABLE then
      var t1 := Unqueue(t, p);
      MakeRunnable(SetProc(t1, p, t1.procs[p].(priority := prio)), p)
    else SetProc(t, p, t.procs[p].(priority := prio))
  }

  ghost function Do(t: Table, step: Step): Table
    requires Shaped(t) && Enabled(t, step)
  {
    match step
    case Alloc(p) => SetProc(t, p, t.procs[p].(state := EMBRYO, pid := t.nextpid)).(nextpid := t.nextpid + 1)
    case Abandon(p) => SetProc(t, p, t.procs[p].(state := UNUSED))
    case Adopt(p, parent) => SetProc(t, p, t.procs[p].(parent := parent))
    case Start(p, prio) => MakeRunnable(SetProc(t, p, t.procs[p].(priority := prio)), p)
    case Dispatch(c) => DoDispatch(t, c)
    case Yield(c) => MakeRunnable(t, t.cpus[c]).(cpus := t.cpus[c := NULL])
    case Sleep(c, chan) =>
      SetProc(t, t.cpus[c], t.procs[t.cpus[c]].(state := SLEEPING, chan := chan)).(cpus := t.cpus[c := NULL])
    case Wakeup(chan) => WakeFrom(t, chan, 0)
    case Exit(c, status, init) => DoExit(t, c, status, init)
    case Reap(p) =>
      SetProc(t, p, t.procs[p].(state := UNUSED, pid := 0, parent := NULL, killed := false, priority := HI_PRIO))
    case Kill(p) =>
      var t1 := SetProc(t, p, t.procs[p].(killed := true));
      if t.procs[p].state == SLEEPING then MakeRunnable(t1, p) else t1
    case SetPrio(p, prio) => DoSetPrio(t, p, prio)
  }

  // ---------------------------------------------------------------- invariant

  /** p is in queue q exactly when it is runnable with that priority. */
  ghost predicate Listed(t: Table, q: int, p: int)
    requires Shaped(t) && 0 <= q < 2 && 0 <= p < NPROC
  {
    p in t.rings[q] <==> t.procs[p].state == RUNNABLE && t.procs[p].priority == q
  }

  /** A list of distinct slots. */
  ghost predicate SlotList(r: seq<int>) {
    && (forall k :: 0 <= k < |r| ==> 0 <= r[k] < NPROC)
    && (forall k, l :: 0 <= k < l < |r| ==> r[k] != r[l])
  }

  ghost predicate Queued(t: Table) {
    && Shaped(t) && SlotList(t.rings[0]) && SlotList(t.rings[1])
    && forall q, p :: 0 <= q < 2 && 0 <= p < NPROC ==> Listed(t, q, p)
  }

  /** Each running process is on exactly one processor. */
  ghost predicate Placed(procs: seq<Proc>, cpus: seq<int>) {
    && (forall c :: 0 <= c < |cpus| ==>
          cpus[c] == NULL || (0 <= cpus[c] < |procs| && procs[cpus[c]].state == RUNNING))
    && (forall c, d :: 0 <= c < d < |cpus| && cpus[c] == cpus[d] ==> cpus[c] == NULL)
    && (forall p :: 0 <= p < |procs| && procs[p].state == RUNNING ==> p in cpus)
  }

  ghost predicate Inv(t: Table) {
    Queued(t) && Placed(t.procs, t.cpus)
  }
}
