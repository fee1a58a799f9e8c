/**
 Log space reservation: `begin_op`, `log_write` and `end_op` of any number of
 processes, interleaved at their lock-held sections, with sleep and wakeup. The test of
 `log_write` comes before its lock-held section and is a step of its own.

 `budget` is the number of distinct blocks each operation adds at most.  The design
 allows MAXOPBLOCKS; what the code delivers depends on it.
 */
module LogReservation {
  import opened Common
  import opened Blocks

  type Pid = nat

  datatype State = State(
    n: nat,                  // log.lh.n
    ops: map<Pid, nat>,      // outstanding operations and the blocks each has added
    committing: bool,
    asleep: set<Pid>,        // processes asleep in begin_op
    passed: set<Pid>)        // processes past the test of log_write that have not taken the lock

  datatype Step =
    | BeginOp(pid: Pid)
    | LogTest(pid: Pid)
    | LogWrite(pid: Pid, adds: bool)   // adds: not absorbed by an earlier log_write
    | EndOp(pid: Pid)
    | CommitDone

  const NLOG := LOGSIZE   // mkfs gives the log LOGSIZE blocks, header included

  /** The condition on which `begin_op` goes to sleep. */
  predicate MustWait(s: State) {
    s.committing || s.n + (|s.ops| + 1) * MAXOPBLOCKS > LOGSIZE
  }

  /** `log_write` panics with "too big a transaction". */
  predicate TooBig(s: State) {
    s.n >= LOGSIZE || s.n >= NLOG - 1
  }

  /** What operations that keep to the budget may do next, whatever the test of `log_write` says. */
  predicate Allowed(budget: nat, s: State, step: Step) {
    match step
    case BeginOp(pid) => pid !in s.ops && pid !in s.asleep
    case LogTest(pid) => pid in s.ops && pid !in s.passed
    case LogWrite(pid, adds) => pid in s.ops && pid in s.passed && (adds ==> s.ops[pid] < budget)
    case EndOp(pid) => pid in s.ops && pid !in s.passed
    case CommitDone => s.committing
  }

  /** The same with that test, which sees the log as it is before the lock is taken. */
  predicate Enabled(budget: nat, s: State, step: Step) {
    Allowed(budget, s, step) && !(step.LogTest? && TooBig(s))
  }

  function Do(s: State, step: Step): State
    requires step.LogWrite? ==> step.pid in s.ops
  {
    match step
    case BeginOp(pid) =>
      if MustWait(s) then s.(asleep := s.asleep + {pid}) else s.(ops := s.ops[pid := 0])
    case LogTest(pid) =>
      s.(passed := s.passed + {pid})
    case LogWrite(pid, adds) =>
      var t := s.(passed := s.passed - {pid});
      if adds then t.(n := s.n + 1, ops := s.ops[pid := s.ops[pid] + 1]) else t
    case EndOp(pid) =>
      var rest := s.ops - {pid};
      if rest == map[] then s.(ops := rest, committing := true) else s.(ops := rest, asleep := {})
    case CommitDone =>
      s.(n := 0, committing := false, asleep := {})
  }

  const START := State(0, map[], false, {}, {})

  datatype Run = Run(states: seq<State>, steps: seq<Step>) {
    function Last(): State
      requires |states| > 0
    {
      states[|states| - 1]
    }
  }

  /** A run in which nothing but the reservation of `begin_op` holds operations back. */
  ghost predicate IsRun(budget: nat, r: Run) {
    && |r.states| == |r.steps| + 1
    && r.states[0] == START
    && forall i {:trigger StepAt(budget, r, i)} :: 0 <= i < |r.steps| ==> StepAt(budget, r, i)
  }

  ghost predicate StepAt(budget: nat, r: Run, i: nat)
    requires i < |r.steps| && |r.states| == |r.steps| + 1
  {
    Allowed(budget, r.states[i], r.steps[i]) && r.states[i + 1] == Do(r.states[i], r.steps[i])
  }

  /** A run of the code: `log_write` has its test. */
  ghost predicate IsGuardedRun(budget: nat, r: Run) {
    IsRun(budget, r) && forall i :: 0 <= i < |r.steps| ==> Enabled(budget, r.states[i], r.steps[i])
  }

  // -------------------------------------------------- unused part of budgets

  /** How many more blocks the outstanding operations may still add. */
  ghost function Unused(budget: nat, ops: map<Pid, nat>): int {
    if ops == map[] then 0
    else
      var p :| p in ops;
      budget - ops[p] + Unused(budget, ops - {p})
  }

  lemma {:induction false} UnusedRemove(budget: nat, ops: map<Pid, nat>, p: Pid)
    requires p in ops
    ensures Unused(budget, ops) == budget - ops[p] + Unused(budget, ops - {p})
    decreases |ops|
  {
    var q :| q in ops && Unused(budget, ops) == budget - ops[q] + Unused(budget, ops - {q});
    if q != p {
      UnusedRemove(budget, ops - {q}, p);
      UnusedRemove(budget, ops - {p}, q);
      assert ops - {q} - {p} == ops - {p} - {q};
    }
  }

  lemma UnusedUpdate(budget: nat, ops: map<Pid, nat>, p: Pid, used: nat)
    ensures Unused(budget, ops[p := used]) ==
            Unused(budget, ops) + (if p in ops then ops[p] - used else budget - used)
  {
    var ops' := ops[p := used];
    UnusedRemove(budget, ops', p);
    if p in ops {
      UnusedRemove(budget, ops, p);
      assert ops' - {p} == ops - {p};
    } else {
      assert ops' - {p} == ops;
    }
  }

  lemma {:induction false} UnusedBounds(budget: nat, ops: map<Pid, nat>)
    requires forall p :: p in ops ==> ops[p] <= budget
    ensures 0 <= Unused(budget, ops) <= budget * |ops|
    decreases |ops|
  {
    if ops != map[] {
      var p :| p in ops;
      UnusedRemove(budget, ops, p);
      UnusedBounds(budget, ops - {p});
      assert budget * |ops| == budget * (|ops| - 1) + budget;
    }
  }

  // ---------------------------------------------------------------- invariant

  ghost predicate Inv(budget: nat, s: State) {
    && (forall p :: p in s.ops ==> s.ops[p] <= budget)
    && (s.committing ==> s.ops == map[])
    && (!s.committing && s.ops == map[] ==> s.n == 0)
    && s.n + Unused(budget, s.ops) <= MAXOPBLOCKS + 2 * budget
    && (s.asleep != {} ==> MustWait(s))
  }

  lemma BeginFits(budget: nat, s: State, pid: Pid)
    requires budget <= MAXOPBLOCKS && Inv(budget, s) && pid !in s.ops && !MustWait(s)
    ensures s.n + Unused(budget, s.ops) + budget <= MAXOPBLOCKS + 2 * budget
  {
    UnusedBounds(budget, s.ops);
    var k := |s.ops|;
    if k >= 1 {
      assert s.n + (k + 1) * MAXOPBLOCKS <= LOGSIZE;
      assert k == 1 || k == 2;
    }
  }

  lemma KeepStep(budget: nat, s: State, step: Step)
    requires budget <= MAXOPBLOCKS && Inv(budget, s) && Allowed(budget, s, step)
    ensures Inv(budget, Do(s, step))
  {
    match step
    case BeginOp(pid) =>
      if !MustWait(s) {
        BeginFits(budget, s, pid);
        UnusedUpdate(budget, s.ops, pid, 0);
      }
    case LogTest(pid) =>
    case LogWrite(pid, adds) =>
      if adds {
        UnusedUpdate(budget, s.ops, pid, s.ops[pid] + 1);
      }
    case EndOp(pid) =>
      UnusedRemove(budget, s.ops, pid);
    case CommitDone =>
  }

  lemma {:induction false} InvAlongRun(budget: nat, r: Run, i: nat)
    requires budget <= MAXOPBLOCKS && IsRun(budget, r) && i < |r.states|
    ensures Inv(budget, r.states[i])
  {
    if i > 0 {
      InvAlongRun(budget, r, i - 1);
      assert StepAt(budget, r, i - 1);
      KeepStep(budget, r.states[i - 1], r.steps[i - 1]);
    }
  }

  /**
   With the promised budget the reservation of `begin_op` is enough: in every interleaving the
   blocks logged and those the outstanding operations may still log fit into the header array,
   with no help from the test of `log_write`.
   */
  lemma LogNeverOverflows(r: Run, i: nat)
    requires IsRun(MAXOPBLOCKS, r) && i < |r.states|
    ensures var s := r.states[i]; s.n <= s.n + Unused(MAXOPBLOCKS, s.ops) <= LOGSIZE
  {
    InvAlongRun(MAXOPBLOCKS, r, i);
    UnusedBounds(MAXOPBLOCKS, r.states[i].ops);
  }

  /** A commit runs alone, so `end_op` never finds log.committing set. */
  lemma CommitRunsAlone(r: Run, i: nat)
    requires IsRun(MAXOPBLOCKS, r) && i < |r.states| && r.states[i].committing
    ensures forall pid :: pid !in r.states[i].ops && !Allowed(MAXOPBLOCKS, r.states[i], EndOp(pid))
  {
    InvAlongRun(MAXOPBLOCKS, r, i);
  }

  /**
   No lost wakeup: whoever sleeps in `begin_op` still has its reason to, and some
   commit or outstanding operation will end it.
   */
  lemma SleepersWillBeWoken(r: Run, i: nat)
    requires IsRun(MAXOPBLOCKS, r) && i < |r.states| && r.states[i].asleep != {}
    ensures MustWait(r.states[i])
    ensures r.states[i].committing || r.states[i].ops != map[]
  {
    InvAlongRun(MAXOPBLOCKS, r, i);
  }

  // ------------------------------------------------------- the log outgrows its region

  /** Some run overflows the header array when `log_write` has no test. */
  ghost predicate OverflowReachable(budget: nat) {
    exists r: Run :: IsRun(budget, r) && r.Last().n > LOGSIZE
  }

  /** Some run overflows the header array although `log_write` has its test. */
  ghost predicate GuardedOverflowReachable(budget: nat) {
    exists r: Run :: IsGuardedRun(budget, r) && r.Last().n > LOGSIZE
  }

  /** Some run logs more blocks than the log region has room for, although `log_write` has its test. */
  ghost predicate SpillReachable(budget: nat) {
    exists r: Run :: IsGuardedRun(budget, r) && r.Last().n > NLOG - 1
  }

  /** Some run brings an outstanding operation to a `log_write` that panics. */
  ghost predicate PanicReachable(budget: nat) {
    exists r: Run, pid: Pid :: IsGuardedRun(budget, r) && pid in r.Last().ops && TooBig(r.Last())
  }

  lemma Extend(budget: nat, r: Run, step: Step) returns (r': Run)
    requires IsGuardedRun(budget, r) && Enabled(budget, r.Last(), step)
    ensures IsGuardedRun(budget, r') && r'.Last() == Do(r.Last(), step)
  {
    r' := Run(r.states + [Do(r.Last(), step)], r.steps + [step]);
    forall i | 0 <= i < |r'.steps| ensures StepAt(budget, r', i) && Enabled(budget, r'.states[i], r'.steps[i]) {
      if i < |r.steps| {
        assert StepAt(budget, r, i) && Enabled(budget, r.states[i], r.steps[i]);
      }
    }
  }

  /** How many of j blocks operation p has added when three operations take turns. */
  function Share(j: nat, p: nat): nat
    requires p < 3
  {
    (j + 2 - p) / 3
  }

  /** Three operations that have added j blocks between them, in turns. */
  function Filled(j: nat): State {
    State(j, map[0 := Share(j, 0), 1 := Share(j, 1), 2 := Share(j, 2)], false, {}, {})
  }

  lemma NextBlock(budget: nat, r: Run, j: nat) returns (r': Run)
    requires IsGuardedRun(budget, r) && r.Last() == Filled(j) && j < NLOG - 1 && Share(j, j % 3) < budget
    ensures IsGuardedRun(budget, r') && r'.Last() == Filled(j + 1)
  {
    var p := j % 3;
    r' := Extend(budget, r, LogTest(p));
    r' := Extend(budget, r', LogWrite(p, true));
    assert r'.Last().passed == {};
    assert r'.Last().ops == Filled(j + 1).ops;
  }

  lemma ThreeStart(budget: nat) returns (r: Run)
    ensures IsGuardedRun(budget, r) && r.Last() == Filled(0)
  {
    r := Run([START], []);
    assert |map[0 := 0 as nat]| == 1 && |map[0 := 0 as nat, 1 := 0]| == 2;
    r := Extend(budget, r, BeginOp(0));
    assert r.Last() == START.(ops := map[0 := 0]);
    r := Extend(budget, r, BeginOp(1));
    assert r.Last() == START.(ops := map[0 := 0, 1 := 0]);
    r := Extend(budget, r, BeginOp(2));
    assert r.Last().ops == Filled(0).ops;
  }

  lemma {:induction false} FillUp(budget: nat, j: nat) returns (r: Run)
    requires j <= NLOG - 1 && budget >= MAXOPBLOCKS
    ensures IsGuardedRun(budget, r) && r.Last() == Filled(j)
  {
    if j == 0 {
      r := ThreeStart(budget);
    } else {
      r := FillUp(budget, j - 1);
      r := NextBlock(budget, r, j - 1);
    }
  }

  /** Operations 1 and 2 both pass the test when there is room for one more block, and both append. */
  lemma TwoPassTogether(budget: nat) returns (r: Run)
    requires budget >= MAXOPBLOCKS
    ensures IsGuardedRun(budget, r) && r.Last().n == NLOG
  {
    r := FillUp(budget, NLOG - 2);
    r := Extend(budget, r, LogTest(1));
    r := Extend(budget, r, LogTest(2));
    r := Extend(budget, r, LogWrite(1, true));
    r := Extend(budget, r, LogWrite(2, true));
  }

  /** With a larger budget all three do. */
  lemma ThreePassTogether(budget: nat) returns (r: Run)
    requires budget > MAXOPBLOCKS
    ensures IsGuardedRun(budget, r) && r.Last().n == NLOG + 1
  {
    r := FillUp(budget, NLOG - 2);
    r := Extend(budget, r, LogTest(0));
    r := Extend(budget, r, LogTest(1));
    r := Extend(budget, r, LogTest(2));
    r := Extend(budget, r, LogWrite(0, true));
    r := Extend(budget, r, LogWrite(1, true));
    r := Extend(budget, r, LogWrite(2, true));
  }

  /**
   The bound on the header array is exact, with and without the test of `log_write`: one block
   more than MAXOPBLOCKS per operation, and it can overflow.
   */
  lemma OverflowReachableIff(budget: nat)
    ensures OverflowReachable(budget) <==> budget > MAXOPBLOCKS
    ensures GuardedOverflowReachable(budget) <==> budget > MAXOPBLOCKS
  {
    if budget > MAXOPBLOCKS {
      var r := ThreePassTogether(budget);
      assert r.Last().n > LOGSIZE;
    } else {
      forall r: Run | IsRun(budget, r) ensures r.Last().n <= LOGSIZE {
        InvAlongRun(budget, r, |r.steps|);
        UnusedBounds(budget, r.Last().ops);
      }
    }
  }

  /**
   The test of `log_write` does not keep the log within its region, because another process may
   append between the test and the lock. The log stays within its region exactly when every
   operation leaves at least one block of its MAXOPBLOCKS unused.
   */
  lemma SpillReachableIff(budget: nat)
    ensures SpillReachable(budget) <==> budget >= MAXOPBLOCKS
  {
    if budget >= MAXOPBLOCKS {
      var r := TwoPassTogether(budget);
      assert r.Last().n > NLOG - 1;
    } else {
      forall r: Run | IsRun(budget, r) ensures r.Last().n <= NLOG - 1 {
        InvAlongRun(budget, r, |r.steps|);
        UnusedBounds(budget, r.Last().ops);
      }
    }
  }

  // ------------------------------------------- the "too big" panic of log_write

  lemma PanicWithFullBudget(budget: nat)
    requires budget >= MAXOPBLOCKS
    ensures PanicReachable(budget)
  {
    var r := FillUp(budget, NLOG - 1);
    assert 2 in r.Last().ops && TooBig(r.Last());
  }

  /**
   The reservation of `begin_op` does not rule out the panic: the guard is one block
   tighter than the reservation.  It is ruled out exactly when every operation leaves
   at least one block of its MAXOPBLOCKS unused.
   */
  lemma PanicReachableIff(budget: nat)
    ensures PanicReachable(budget) <==> budget >= MAXOPBLOCKS
  {
    if budget >= MAXOPBLOCKS {
      PanicWithFullBudget(budget);
    } else {
      forall r: Run, pid: Pid | IsRun(budget, r) && pid in r.Last().ops ensures !TooBig(r.Last()) {
        InvAlongRun(budget, r, |r.steps|);
        UnusedBounds(budget, r.Last().ops);
      }
    }
  }
}
