/**
 Crash atomicity for operations that keep to a budget: the reservation of `begin_op` keeps the
 log within its region, so the hypothesis of the crash theorems holds.
 */
module LogBudget {
  import opened Common
  import opened Blocks
  import opened LogMachine
  import opened LogRuns
  import LogReservation

  /** The distinct blocks that operation o has logged. */
  ghost function BlocksBy(ws: seq<Write>, o: OpId): set<Word> {
    if ws == [] then {}
    else
      var rest, w := BlocksBy(ws[..|ws| - 1], o), ws[|ws| - 1];
      if w.op == o then rest + {w.block} else rest
  }

  /** Every running operation has logged at most `budget` blocks. */
  ghost predicate KeepsTo(budget: nat, s: State) {
    forall p :: p in s.active ==> |BlocksBy(s.hist.pending, s.active[p])| <= budget
  }

  ghost predicate RunKeepsTo(budget: nat, r: Run) {
    forall k {:trigger KeepsTo(budget, r.states[k])} :: 0 <= k < |r.states| ==> KeepsTo(budget, r.states[k])
  }

  lemma BlocksBySnoc(ws: seq<Write>, w: Write, o: OpId)
    ensures BlocksBy(ws + [w], o) == if w.op == o then BlocksBy(ws, o) + {w.block} else BlocksBy(ws, o)
  {
    assert (ws + [w])[..|ws|] == ws;
  }

  lemma {:induction false} BlocksByLogged(ws: seq<Write>, o: OpId, lh: seq<Word>)
    requires forall i :: 0 <= i < |ws| ==> ws[i].block in lh
    ensures forall b :: b in BlocksBy(ws, o) ==> b in lh
  {
    if ws != [] {
      BlocksByLogged(ws[..|ws| - 1], o, lh);
    }
  }

  // --------------------------------------------------- the machine of the reservation

  /** The log as the reservation sees it. */
  ghost function Reservation(s: State, ops: map<Pid, nat>): LogReservation.State {
    LogReservation.State(if s.pc.Idle? then |s.lh| else 0, ops, !s.pc.Idle?, {}, s.passed.Keys)
  }

  /** `ops` counts blocks that each running operation has added to the log, within the reservation. */
  ghost predicate Reserved(budget: nat, s: State, ops: map<Pid, nat>) {
    && ops.Keys == s.active.Keys
    && (forall p :: p in ops ==> ops[p] <= |BlocksBy(s.hist.pending, s.active[p])|)
    && LogReservation.Inv(budget, Reservation(s, ops))
  }

  lemma ReservedBegin(budget: nat, s: State, pid: Pid, ops: map<Pid, nat>)
    requires budget <= MAXOPBLOCKS && Reserved(budget, s, ops) && CanBeginOp(s, pid)
    ensures Reserved(budget, DoBeginOp(s, pid), ops[pid := 0])
  {
    assert |ops| == |ops.Keys| && |s.active| == |s.active.Keys|;
    LogReservation.KeepStep(budget, Reservation(s, ops), LogReservation.BeginOp(pid));
  }

  lemma ReservedEnd(budget: nat, s: State, pid: Pid, ops: map<Pid, nat>)
    requires budget <= MAXOPBLOCKS && Reserved(budget, s, ops) && CanEndOp(s, pid) && Acts(s, pid) && s.pc.Idle?
    ensures Reserved(budget, DoEndOp(s, pid), ops - {pid})
  {
    var rest, ops' := s.active - {pid}, ops - {pid};
    assert ops'.Keys == rest.Keys && |ops'| == |ops'.Keys| && |rest| == |rest.Keys|;
    LogReservation.KeepStep(budget, Reservation(s, ops), LogReservation.EndOp(pid));
  }

  /** The count of the operation that appends. */
  function Counted(s: State, pid: Pid, b: nat, ops: map<Pid, nat>): map<Pid, nat> {
    if b in s.lh || pid !in ops then ops else ops[pid := ops[pid] + 1]
  }

  lemma CountedFits(L: Layout, s: State, pid: Pid, b: nat, ops: map<Pid, nat>, p: Pid)
    requires Current(s.hist, s.active) && PendingInLog(s.pc, s.lh, s.hist.pending) && CanLogWrite(L, s, pid, b)
    requires ops.Keys == s.active.Keys && p in ops && ops[p] <= |BlocksBy(s.hist.pending, s.active[p])|
    ensures Counted(s, pid, b, ops)[p] <= |BlocksBy(DoLogWrite(L, s, pid, b).hist.pending, s.active[p])|
  {
    var was := BlocksBy(s.hist.pending, s.active[p]);
    BlocksBySnoc(s.hist.pending, Write(s.active[pid], b, s.cache[b].data), s.active[p]);
    BlocksByLogged(s.hist.pending, s.active[p], s.lh);
    if p == pid {
      OneMore(was, b);
    } else {
      assert s.active[p] != s.active[pid];
    }
  }

  lemma OneMore(was: set<Word>, b: Word)
    ensures |was + {b}| == if b in was then |was| else |was| + 1
  {
    if b in was {
      assert was + {b} == was;
    }
  }

  lemma ReservedWrite(budget: nat, L: Layout, s: State, pid: Pid, b: nat, ops: map<Pid, nat>)
    requires budget <= MAXOPBLOCKS && Reserved(budget, s, ops) && CanLogWrite(L, s, pid, b) && s.pc.Idle?
    requires Current(s.hist, s.active) && PendingInLog(s.pc, s.lh, s.hist.pending)
    requires KeepsTo(budget, DoLogWrite(L, s, pid, b))
    ensures Reserved(budget, DoLogWrite(L, s, pid, b), Counted(s, pid, b, ops))
  {
    var s', ops' := DoLogWrite(L, s, pid, b), Counted(s, pid, b, ops);
    assert ops'.Keys == ops.Keys;
    forall p | p in ops' ensures ops'[p] <= |BlocksBy(s'.hist.pending, s.active[p])| {
      CountedFits(L, s, pid, b, ops, p);
    }
    assert |BlocksBy(s'.hist.pending, s'.active[pid])| <= budget;
    CountedInv(budget, L, s, pid, b, ops);
  }

  lemma CountedInv(budget: nat, L: Layout, s: State, pid: Pid, b: nat, ops: map<Pid, nat>)
    requires budget <= MAXOPBLOCKS && CanLogWrite(L, s, pid, b) && s.pc.Idle? && pid in ops
    requires LogReservation.Inv(budget, Reservation(s, ops)) && Counted(s, pid, b, ops)[pid] <= budget
    ensures LogReservation.Inv(budget, Reservation(DoLogWrite(L, s, pid, b), Counted(s, pid, b, ops)))
  {
    var step := LogReservation.LogWrite(pid, b !in s.lh);
    LogReservation.KeepStep(budget, Reservation(s, ops), step);
    assert Reservation(DoLogWrite(L, s, pid, b), Counted(s, pid, b, ops)) ==
           LogReservation.Do(Reservation(s, ops), step);
  }

  /** No operation is running. */
  lemma NothingReserved(budget: nat, s: State)
    requires s.active == map[] && (s.pc.Idle? ==> s.lh == [])
    ensures Reserved(budget, s, map[])
  {
  }

  /** Nothing that the reservation looks at has changed. */
  lemma SameReserved(budget: nat, s: State, s': State, ops: map<Pid, nat>)
    requires Reserved(budget, s, ops) && s'.active == s.active && s'.hist.pending == s.hist.pending
    requires s'.pc == s.pc && s'.lh == s.lh
    ensures Reserved(budget, s', ops)
  {
  }

  /** What the reservation needs of the invariant. */
  ghost predicate Settled(s: State) {
    Ordered(s) && (s.pc.Cleared? ==> s.lh == [])
  }

  /** Steps other than those of begin_op, end_op and log_write, and a crash. */
  lemma OtherReserved(budget: nat, L: Layout, s: State, step: Step, ops: map<Pid, nat>)
    requires Settled(s) && Enabled(L, s, step) && Reserved(budget, s, ops)
    requires !step.BeginOp? && !step.EndOp? && !step.LogWrite? && !step.Crash?
    ensures Reserved(budget, Do(L, s, step), ops)
  {
    var s' := Do(L, s, step);
    if s.pc.Idle? {
      SameReserved(budget, s, s', ops);
    } else {
      assert ops == map[];
      NothingReserved(budget, s');
    }
  }

  lemma ReservedStep(budget: nat, L: Layout, s: State, step: Step, ops: map<Pid, nat>) returns (ops': map<Pid, nat>)
    requires budget <= MAXOPBLOCKS && Settled(s) && Enabled(L, s, step) && Reserved(budget, s, ops)
    requires KeepsTo(budget, Do(L, s, step))
    ensures Reserved(budget, Do(L, s, step), ops')
  {
    match step
    case BeginOp(pid) =>
      ReservedBegin(budget, s, pid, ops);
      ops' := ops[pid := 0];
    case EndOp(pid) =>
      ReservedEnd(budget, s, pid, ops);
      ops' := ops - {pid};
    case LogWrite(pid, b) =>
      ReservedWrite(budget, L, s, pid, b, ops);
      ops' := Counted(s, pid, b, ops);
    case Crash =>
      NothingReserved(budget, DoCrash(s));
      ops' := map[];
    case _ =>
      OtherReserved(budget, L, s, step, ops);
      ops' := ops;
  }

  /** The log never outgrows its region while operations keep to a budget that fits. */
  lemma {:induction false} BudgetContains(budget: nat, L: Layout, image: Image, r: Run, i: nat)
    returns (ops: map<Pid, nat>)
    requires IsRun(L, image, r) && RunKeepsTo(budget, r) && i < |r.states|
    requires budget <= MAXOPBLOCKS && MAXOPBLOCKS + 2 * budget <= L.Capacity()
    ensures Contained(L, r, i) && Reserved(budget, r.states[i], ops)
  {
    if i == 0 {
      NothingReserved(budget, r.states[0]);
      ops := map[];
    } else {
      ops := BudgetContains(budget, L, image, r, i - 1);
      ops := BudgetStep(budget, L, image, r, i - 1, ops);
    }
  }

  lemma OneMoreRoom(L: Layout, r: Run, k: nat)
    requires k < |r.steps| && Contained(L, r, k) && RoomAt(L, r, k)
    ensures Contained(L, r, k + 1)
  {
  }

  lemma SettledByInv(L: Layout, s: State)
    requires Inv(L, s)
    ensures Settled(s)
  {
  }

  lemma BudgetStep(budget: nat, L: Layout, image: Image, r: Run, k: nat, ops: map<Pid, nat>)
    returns (ops': map<Pid, nat>)
    requires IsRun(L, image, r) && RunKeepsTo(budget, r) && k < |r.steps| && Contained(L, r, k)
    requires budget <= MAXOPBLOCKS && MAXOPBLOCKS + 2 * budget <= L.Capacity() && Reserved(budget, r.states[k], ops)
    ensures Reserved(budget, r.states[k + 1], ops') && Contained(L, r, k + 1)
  {
    InvAlongRun(L, image, r, k);
    SettledByInv(L, r.states[k]);
    assert StepAt(L, r, k) && KeepsTo(budget, r.states[k + 1]);
    ops' := ReservedStep(budget, L, r.states[k], r.steps[k], ops);
    RoomByReservation(budget, L, r.states[k], r.steps[k], ops');
    OneMoreRoom(L, r, k);
  }

  lemma RoomByReservation(budget: nat, L: Layout, s: State, step: Step, ops: map<Pid, nat>)
    requires Settled(s) && Enabled(L, s, step) && Reserved(budget, Do(L, s, step), ops)
    requires MAXOPBLOCKS + 2 * budget <= L.Capacity()
    ensures HasRoom(L, s, step)
  {
    LogReservation.UnusedBounds(budget, ops);
  }

  // ------------------------------------------------------------------ crash atomicity

  /** What recovery leaves of the disk of a state is the image of the groups committed so far. */
  ghost predicate Atomic(L: Layout, image: Image, s: State) {
    && Readable(L, s.disk) && |image| == L.total
    && forall b :: L.Home(b) ==> Recover(L, s.disk)[b] == ApplyGroups(image, s.hist.groups)[b]
  }

  /** At every point of every run of operations that keep to a budget that fits. */
  lemma BudgetedCrashAtomicity(budget: nat, L: Layout, image: Image, r: Run, i: nat)
    requires IsRun(L, image, r) && RunKeepsTo(budget, r) && i < |r.states|
    requires budget <= MAXOPBLOCKS && MAXOPBLOCKS + 2 * budget <= L.Capacity()
    ensures Atomic(L, image, r.states[i])
  {
    var ops := BudgetContains(budget, L, image, r, i);
    CrashAtomicity(L, image, r, i);
  }
}
