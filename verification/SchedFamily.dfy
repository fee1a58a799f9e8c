/** wakeup, exit and wait between parents and children (proc.c). */
module SchedFamily {
  import opened RunQueue
  import opened SchedMachine
  import opened SchedSafety

  // ------------------------------------------------------------- what wakeup does

  predicate SleepsOn(p: Proc, chan: int) {
    p.state == SLEEPING && p.chan == chan
  }

  /** Slots from i on that sleep on the channel with priority q, in table order. */
  ghost function Sleepers(procs: seq<Proc>, chan: int, q: nat, i: nat): seq<int>
    decreases |procs| - i
  {
    if i >= |procs| then []
    else Own(procs[i], chan, q, i) + Sleepers(procs, chan, q, i + 1)
  }

  lemma {:induction false} SleepersFrame(procs: seq<Proc>, procs': seq<Proc>, chan: int, q: nat, i: nat)
    requires |procs'| == |procs| && forall k :: i <= k < |procs| ==> procs'[k] == procs[k]
    ensures Sleepers(procs', chan, q, i) == Sleepers(procs, chan, q, i)
    decreases |procs| - i
  {
    if i < |procs| {
      SleepersFrame(procs, procs', chan, q, i + 1);
    }
  }

  /** wakeup1 makes exactly the sleepers on the channel runnable ... */
  lemma {:induction false} WakesExactly(t: Table, chan: int, i: nat, p: nat)
    requires Shaped(t) && p < NPROC
    ensures WakeFrom(t, chan, i).procs[p] ==
            if i <= p && SleepsOn(t.procs[p], chan) then t.procs[p].(state := RUNNABLE) else t.procs[p]
    decreases |t.procs| - i
  {
    if i < |t.procs| {
      WakesExactly(if SleepsOn(t.procs[i], chan) then MakeRunnable(t, i) else t, chan, i + 1, p);
    }
  }

  /** Slot i, if it sleeps on the channel with priority q. */
  function Own(p: Proc, chan: int, q: nat, i: nat): seq<int> {
    if SleepsOn(p, chan) && p.priority == q then [i] else []
  }

  lemma Assoc(a: seq<int>, b: seq<int>, c: seq<int>)
    ensures a + b + c == a + (b + c)
  {
  }

  /** ... and appends them to their queues in table order. */
  lemma {:induction false} WakesInOrder(t: Table, chan: int, i: nat, q: nat)
    requires Shaped(t) && q < 2
    ensures WakeFrom(t, chan, i).rings[q] == t.rings[q] + Sleepers(t.procs, chan, q, i)
    decreases |t.procs| - i
  {
    if i < |t.procs| {
      var t1 := if SleepsOn(t.procs[i], chan) then MakeRunnable(t, i) else t;
      var own, rest := Own(t.procs[i], chan, q, i), Sleepers(t.procs, chan, q, i + 1);
      WakesInOrder(t1, chan, i + 1, q);
      SleepersFrame(t.procs, t1.procs, chan, q, i + 1);
      assert t1.rings[q] == t.rings[q] + own;
      Assoc(t.rings[q], own, rest);
    } else {
      assert t.rings[q] + [] == t.rings[q];
    }
  }

  lemma WakesAll(t: Table, chan: int)
    requires Shaped(t)
    ensures forall p :: 0 <= p < NPROC ==>
      WakeFrom(t, chan, 0).procs[p] == if SleepsOn(t.procs[p], chan) then t.procs[p].(state := RUNNABLE) else t.procs[p]
    ensures forall q :: 0 <= q < 2 ==> WakeFrom(t, chan, 0).rings[q] == t.rings[q] + Sleepers(t.procs, chan, q, 0)
  {
    forall p | 0 <= p < NPROC
      ensures WakeFrom(t, chan, 0).procs[p] ==
              if SleepsOn(t.procs[p], chan) then t.procs[p].(state := RUNNABLE) else t.procs[p]
    {
      WakesExactly(t, chan, 0, p);
    }
    forall q | 0 <= q < 2 ensures WakeFrom(t, chan, 0).rings[q] == t.rings[q] + Sleepers(t.procs, chan, q, 0) {
      WakesInOrder(t, chan, 0, q);
    }
  }

  // ------------------------------------------------------ parents, children, exit

  /** Slot i, or a later one, is a child of cur that has exited. */
  ghost predicate Orphan(procs: seq<Proc>, cur: int, i: nat) {
    exists j :: i <= j < |procs| && procs[j].parent == cur && procs[j].state == ZOMBIE
  }

  /**
   What exit of cur does to slot p: cur itself becomes a zombie with its status; the children of
   cur become those of init; whoever sleeps in wait and is the parent of cur is woken, and so is
   init if it gets a child that has exited; nothing else changes.
   */
  ghost predicate Exited(procs: seq<Proc>, procs': seq<Proc>, cur: int, init: int, status: int, p: nat) {
    && |procs'| == |procs| && p < |procs| && 0 <= cur < |procs|
    && var parent := if procs[p].parent == cur then init else procs[p].parent;
       if p == cur then procs'[p] == procs[p].(parent := parent, state := ZOMBIE, status := status)
       else
         var wakes := SleepsOn(procs[p], procs[cur].parent + 1)
                      || (SleepsOn(procs[p], init + 1) && Orphan(procs, cur, 0));
         procs'[p] == procs[p].(parent := parent, state := if wakes then RUNNABLE else procs[p].state)
  }

  /** Slot p after the children of cur from slot i on have been handed over. */
  ghost predicate Handed(procs: seq<Proc>, procs': seq<Proc>, cur: int, init: int, i: nat, p: nat) {
    && |procs'| == |procs| && p < |procs|
    && procs'[p] == procs[p].(
         parent := if p >= i && procs[p].parent == cur then init else procs[p].parent,
         state := if SleepsOn(procs[p], ProcChan(init)) && Orphan(procs, cur, i) then RUNNABLE else procs[p].state)
  }

  lemma DisownOneSlot(t: Table, cur: int, init: int, i: nat, p: nat)
    requires Shaped(t) && i < NPROC && p < NPROC
    ensures DisownOne(t, cur, init, i).procs[p] == t.procs[p].(
              parent := if p == i && t.procs[i].parent == cur then init else t.procs[p].parent,
              state := if SleepsOn(t.procs[p], ProcChan(init)) && t.procs[i].parent == cur && t.procs[i].state == ZOMBIE
                       then RUNNABLE else t.procs[p].state)
  {
    if t.procs[i].parent == cur {
      WakesExactly(SetProc(t, i, t.procs[i].(parent := init)), ProcChan(init), 0, p);
    }
  }

  lemma DisownOneOrphans(t: Table, cur: int, init: int, i: nat)
    requires Shaped(t) && i < NPROC
    ensures Orphan(DisownOne(t, cur, init, i).procs, cur, i + 1) <==> Orphan(t.procs, cur, i + 1)
  {
    var t' := DisownOne(t, cur, init, i);
    forall j | i + 1 <= j < NPROC
      ensures t'.procs[j].parent == t.procs[j].parent && (t'.procs[j].state == ZOMBIE <==> t.procs[j].state == ZOMBIE)
    {
      DisownOneSlot(t, cur, init, i, j);
    }
  }

  lemma {:induction false} DisownSlot(t: Table, cur: int, init: int, i: nat, p: nat)
    requires Shaped(t) && p < NPROC && init != cur
    ensures Handed(t.procs, Disown(t, cur, init, i).procs, cur, init, i, p)
    decreases |t.procs| - i
  {
    if i < |t.procs| {
      var t' := DisownOne(t, cur, init, i);
      DisownOneSlot(t, cur, init, i, p);
      DisownOneOrphans(t, cur, init, i);
      DisownSlot(t', cur, init, i + 1, p);
      OrphanFrom(t.procs, cur, i);
    }
  }

  lemma OrphanFrom(procs: seq<Proc>, cur: int, i: nat)
    requires i < |procs|
    ensures Orphan(procs, cur, i) <==> (procs[i].parent == cur && procs[i].state == ZOMBIE) || Orphan(procs, cur, i + 1)
  {
  }

  lemma WakeKeepsOrphans(t: Table, chan: int, cur: int)
    requires Shaped(t)
    ensures Orphan(WakeFrom(t, chan, 0).procs, cur, 0) <==> Orphan(t.procs, cur, 0)
  {
    WakesAll(t, chan);
  }

  lemma ExitSlots(t: Table, c: int, status: int, init: int)
    requires Inv(t) && Busy(t, c) && t.cpus[c] != init
    ensures forall p :: 0 <= p < NPROC ==> Exited(t.procs, DoExit(t, c, status, init).procs, t.cpus[c], init, status, p)
  {
    var cur := t.cpus[c];
    var chan := ProcChan(t.procs[cur].parent);
    var t1 := WakeFrom(t, chan, 0);
    WakeKeepsOrphans(t, chan, cur);
    forall p | 0 <= p < NPROC
      ensures Exited(t.procs, DoExit(t, c, status, init).procs, cur, init, status, p)
    {
      WakesExactly(t, chan, 0, p);
      WakesExactly(t, chan, 0, cur);
      DisownSlot(t1, cur, init, 0, p);
    }
  }

  /** If c is a child of p that has exited, p is not asleep in wait. */
  ghost predicate Heard(t: Table, p: nat, c: nat)
    requires |t.procs| == NPROC && p < NPROC && c < NPROC
  {
    t.procs[c].state == ZOMBIE && t.procs[c].parent == p ==> !SleepsOn(t.procs[p], ProcChan(p))
  }

  /** Nobody sleeps in wait while one of its children has exited, and nobody is its own parent. */
  ghost predicate Attentive(t: Table) {
    && |t.procs| == NPROC
    && (forall p, c :: 0 <= p < NPROC && 0 <= c < NPROC ==> Heard(t, p, c))
    && (forall p :: 0 <= p < NPROC ==> t.procs[p].parent != p)
  }

  /** What wait ensures of its step: it sleeps only when it has seen no exited child. */
  ghost predicate Looks(t: Table, step: Step)
    requires Shaped(t)
  {
    step.Sleep? && Busy(t, step.c) && step.chan == ProcChan(t.cpus[step.c]) ==>
      forall k :: 0 <= k < NPROC ==> !(t.procs[k].state == ZOMBIE && t.procs[k].parent == t.cpus[step.c])
  }

  /** The first process, once it has been started: it has no parent and has not exited. */
  ghost predicate Root(t: Table, init: int) {
    && |t.procs| == NPROC && 0 <= init < NPROC && t.procs[init].parent == NULL
    && (t.procs[init].state == RUNNABLE || t.procs[init].state == RUNNING || t.procs[init].state == SLEEPING)
  }

  lemma WakeKeepsAttentive(t: Table, chan: int)
    requires Shaped(t) && Attentive(t)
    ensures Attentive(WakeFrom(t, chan, 0))
  {
    var t' := WakeFrom(t, chan, 0);
    forall p | 0 <= p < NPROC ensures t'.procs[p].parent != p {
      WakesExactly(t, chan, 0, p);
    }
    forall p, c | 0 <= p < NPROC && 0 <= c < NPROC ensures Heard(t', p, c) {
      WakesExactly(t, chan, 0, p);
      WakesExactly(t, chan, 0, c);
      assert Heard(t, p, c);
    }
  }

  /** A child handed to init; if it has exited, init is woken. */
  lemma DisownOneKeeps(t: Table, cur: int, init: nat, i: nat)
    requires Shaped(t) && Attentive(t) && init < NPROC && i < NPROC && t.procs[init].parent == NULL && cur != NULL
    ensures Attentive(DisownOne(t, cur, init, i)) && DisownOne(t, cur, init, i).procs[init].parent == NULL
  {
    if t.procs[i].parent == cur {
      var t1 := SetProc(t, i, t.procs[i].(parent := init));
      if t1.procs[i].state == ZOMBIE {
        var t2 := WakeFrom(t1, ProcChan(init), 0);
        WakesExactly(t1, ProcChan(init), 0, init);
        forall p | 0 <= p < NPROC ensures t2.procs[p].parent != p {
          WakesExactly(t1, ProcChan(init), 0, p);
        }
        forall p, c | 0 <= p < NPROC && 0 <= c < NPROC ensures Heard(t2, p, c) {
          WakesExactly(t1, ProcChan(init), 0, p);
          WakesExactly(t1, ProcChan(init), 0, c);
          assert Heard(t, p, c);
        }
      } else {
        forall p, c | 0 <= p < NPROC && 0 <= c < NPROC ensures Heard(t1, p, c) {
          assert Heard(t, p, c);
        }
      }
    }
  }

  lemma {:induction false} DisownKeeps(t: Table, cur: int, init: nat, i: nat)
    requires Shaped(t) && Attentive(t) && init < NPROC && t.procs[init].parent == NULL && cur != NULL
    ensures Attentive(Disown(t, cur, init, i))
    decreases |t.procs| - i
  {
    if i < |t.procs| {
      DisownOneKeeps(t, cur, init, i);
      DisownKeeps(DisownOne(t, cur, init, i), cur, init, i + 1);
    }
  }

  /** Handing children over changes no other parent. */
  lemma DisownOneParent(t: Table, cur: int, init: int, i: nat, p: nat)
    requires Shaped(t) && i < NPROC && p < NPROC
    ensures DisownOne(t, cur, init, i).procs[p].parent ==
            if p == i && t.procs[i].parent == cur then init else t.procs[p].parent
  {
    if t.procs[i].parent == cur {
      WakesExactly(SetProc(t, i, t.procs[i].(parent := init)), ProcChan(init), 0, p);
    }
  }

  /** exit leaves no process with the exiting one as its parent, and changes no other parent. */
  lemma {:induction false} DisownParents(t: Table, cur: int, init: int, i: nat, p: nat)
    requires Shaped(t) && p < NPROC && init != cur
    ensures Disown(t, cur, init, i).procs[p].parent ==
            if p >= i && t.procs[p].parent == cur then init else t.procs[p].parent
    decreases |t.procs| - i
  {
    if i < |t.procs| {
      DisownOneParent(t, cur, init, i, p);
      DisownParents(DisownOne(t, cur, init, i), cur, init, i + 1, p);
    }
  }

  /** Who sleeps where after handing children over: nobody starts to sleep. */
  lemma NobodyStartsToSleep(t: Table, t': Table, p: nat, chan: int)
    requires Disowned(t, t') && p < |t.procs| && SleepsOn(t'.procs[p], chan)
    ensures SleepsOn(t.procs[p], chan)
  {
    assert WokenProc(t.procs[p].(parent := t'.procs[p].parent), t'.procs[p]);
  }

  /** exit has woken the parent before it becomes a zombie. */
  lemma ParentAwake(t: Table, cur: int, init: int, p: nat)
    requires Shaped(t) && p < NPROC
    ensures !SleepsOn(Disown(WakeFrom(t, ProcChan(p), 0), cur, init, 0).procs[p], ProcChan(p))
  {
    var t1 := WakeFrom(t, ProcChan(p), 0);
    var t2 := Disown(t1, cur, init, 0);
    WakesExactly(t, ProcChan(p), 0, p);
    if SleepsOn(t2.procs[p], ProcChan(p)) {
      NobodyStartsToSleep(t1, t2, p, ProcChan(p));
    }
  }

  lemma ExitKeepsAttentive(t: Table, c: int, status: int, init: nat)
    requires Inv(t) && Attentive(t) && Enabled(t, Exit(c, status, init)) && Root(t, init)
    ensures Attentive(DoExit(t, c, status, init))
  {
    var cur := t.cpus[c];
    var parent := t.procs[cur].parent;
    var t1 := WakeFrom(t, ProcChan(parent), 0);
    WakeKeepsAttentive(t, ProcChan(parent));
    WakesExactly(t, ProcChan(parent), 0, init);
    DisownKeeps(t1, cur, init, 0);
    var t2 := Disown(t1, cur, init, 0);
    WakesExactly(t, ProcChan(parent), 0, cur);
    DisownParents(t1, cur, init, 0, cur);
    if 0 <= parent < NPROC {
      ParentAwake(t, cur, init, parent);
    }
    ZombieHeard(t2, cur, parent, c, status);
  }

  /** The last step of exit. */
  lemma ZombieHeard(t2: Table, cur: int, parent: int, c: int, status: int)
    requires Attentive(t2) && 0 <= cur < NPROC && t2.procs[cur].parent == parent && 0 <= c < |t2.cpus|
    requires 0 <= parent < NPROC ==> !SleepsOn(t2.procs[parent], ProcChan(parent))
    ensures Attentive(SetProc(t2, cur, t2.procs[cur].(state := ZOMBIE, status := status)).(cpus := t2.cpus[c := NULL]))
  {
    var t' := SetProc(t2, cur, t2.procs[cur].(state := ZOMBIE, status := status)).(cpus := t2.cpus[c := NULL]);
    forall p, k | 0 <= p < NPROC && 0 <= k < NPROC ensures Heard(t', p, k) {
      assert Heard(t2, p, k);
    }
  }

  /** Every step keeps parents attentive, if wait looks before it sleeps and children are handed to a root. */
  lemma KeepAttentive(t: Table, step: Step)
    requires Inv(t) && Attentive(t) && Enabled(t, step) && Looks(t, step)
    requires step.Exit? ==> Root(t, step.init)
    ensures Attentive(Do(t, step))
  {
    if step.Exit? {
      ExitKeepsAttentive(t, step.c, step.status, step.init);
    } else if step.Wakeup? {
      WakeKeepsAttentive(t, step.chan);
    } else {
      OtherStepsKeep(t, step);
    }
  }

  lemma OtherStepsKeep(t: Table, step: Step)
    requires Inv(t) && Attentive(t) && Enabled(t, step) && Looks(t, step) && !step.Exit? && !step.Wakeup?
    ensures Attentive(Do(t, step))
  {
    var t' := Do(t, step);
    forall p | 0 <= p < NPROC ensures t'.procs[p].parent != p {
      HeardStep(t, step, p, p);
    }
    forall p, c | 0 <= p < NPROC && 0 <= c < NPROC ensures Heard(t', p, c) {
      HeardStep(t, step, p, c);
    }
  }

  lemma HeardStep(t: Table, step: Step, p: nat, c: nat)
    requires Inv(t) && Enabled(t, step) && Looks(t, step) && !step.Exit? && !step.Wakeup? && p < NPROC && c < NPROC
    requires Heard(t, p, c) && t.procs[p].parent != p
    ensures |Do(t, step).procs| == NPROC && Heard(Do(t, step), p, c) && Do(t, step).procs[p].parent != p
  {
  }

  // --------------------------------------------------------------- the first process

  lemma ExitKeepsRoot(t: Table, c: int, status: int, init: int)
    requires Inv(t) && Root(t, init) && Enabled(t, Exit(c, status, init))
    ensures Root(DoExit(t, c, status, init), init)
  {
    var cur := t.cpus[c];
    WakesExactly(t, ProcChan(t.procs[cur].parent), 0, init);
    DisownKeepsRoot(WakeFrom(t, ProcChan(t.procs[cur].parent), 0), cur, init);
  }

  lemma DisownKeepsRoot(t: Table, cur: int, init: int)
    requires Shaped(t) && Root(t, init) && init != cur && cur != NULL
    ensures Root(Disown(t, cur, init, 0), init)
  {
    DisownParents(t, cur, init, 0, init);
    assert WokenProc(t.procs[init].(parent := NULL), Disown(t, cur, init, 0).procs[init]);
  }

  /** Every step keeps init a root: it is not adopted, not reaped, and does not exit. */
  lemma KeepRoot(t: Table, step: Step, init: int)
    requires Inv(t) && Root(t, init) && Enabled(t, step) && (step.Exit? ==> step.init == init)
    ensures Root(Do(t, step), init)
  {
    if step.Exit? {
      ExitKeepsRoot(t, step.c, step.status, init);
    } else if step.Wakeup? {
      WakesExactly(t, step.chan, 0, init);
    }
  }

  /** allocproc and userinit of the first process, which has no parent. */
  lemma StartsAsRoot(t: Table, step: Step, init: int)
    requires Shaped(t) && 0 <= init < NPROC && t.procs[init].parent == NULL && Enabled(t, step)
    requires step == Alloc(init) || step.Wakeup? || (step.Start? && step.p == init)
    ensures |Do(t, step).procs| == NPROC && Do(t, step).procs[init].parent == NULL
    ensures step.Start? ==> Root(Do(t, step), init)
  {
    if step.Wakeup? {
      WakesExactly(t, step.chan, 0, init);
    }
  }

  /**
   The boot sequence: until userinit starts the first process, at step s, there is only its
   allocproc, and wakeups; exit hands children to this process, which is initproc.
   */
  ghost predicate UserInit(r: Run, init: int, s: nat) {
    && 0 <= init < NPROC && s <= |r.steps|
    && (forall k :: 0 <= k < s ==> r.steps[k] == Alloc(init) || r.steps[k].Wakeup?)
    && (s < |r.steps| ==> r.steps[s].Start? && r.steps[s].p == init)
    && (forall k :: 0 <= k < |r.steps| && r.steps[k].Exit? ==> r.steps[k].init == init)
  }

  /** Before it starts, and ever after, init has no parent. */
  lemma {:induction false} InitIsRoot(r: Run, init: int, s: nat, i: nat)
    requires IsRun(r) && UserInit(r, init, s) && i < |r.tables|
    ensures |r.tables[i].procs| == NPROC && r.tables[i].procs[init].parent == NULL
    ensures i > s ==> Root(r.tables[i], init)
  {
    if i > 0 {
      var k := i - 1;
      InitIsRoot(r, init, s, k);
      InvAlongRun(r, k);
      assert StepAt(r, k);
      if k > s {
        KeepRoot(r.tables[k], r.steps[k], init);
      } else {
        StartsAsRoot(r.tables[k], r.steps[k], init);
      }
    }
  }

  /**
   Nobody ever sleeps in wait while one of its children has exited: in every run that starts
   with userinit and in which wait looks before it sleeps, no exit goes unnoticed.
   */
  lemma {:induction false} NoLostExit(r: Run, init: int, s: nat, i: nat)
    requires IsRun(r) && UserInit(r, init, s) && i < |r.tables|
    requires forall k :: 0 <= k < i ==> Shaped(r.tables[k]) && Looks(r.tables[k], r.steps[k])
    ensures Attentive(r.tables[i])
  {
    if i > 0 {
      var k := i - 1;
      NoLostExit(r, init, s, k);
      InvAlongRun(r, k);
      InitIsRoot(r, init, s, k);
      assert StepAt(r, k);
      KeepAttentive(r.tables[k], r.steps[k]);
    }
  }
}
