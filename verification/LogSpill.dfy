/**
 What the unlocked test of `log_write` lets through: a run of three operations, each within
 MAXOPBLOCKS, that logs one block more than the log region has room for. The last copy of
 `write_log` then lands on the first inode block before the header is written.
 */
module LogSpill {
  import opened Common
  import opened Blocks
  import opened LogMachine
  import opened LogRuns
  import opened LogBudget

  /** The layout that mkfs makes: FSSIZE blocks, the log at block 2. */
  const MKFS: Layout := LogRegion(2, LOGSIZE, 1000)

  function Zero(): (z: Block)
    ensures forall i :: 0 <= i < BLOCK_WORDS ==> z[i] == 0
  {
    seq(BLOCK_WORDS, _ => 0)
  }

  function Mark(): (m: Block)
    ensures m != Zero()
  {
    var m := Zero()[0 := 1];
    assert m[0] != Zero()[0];
    m
  }

  function Blank(): (d: Image)
    ensures |d| == MKFS.total && forall b :: 0 <= b < |d| ==> d[b] == Zero()
  {
    seq(MKFS.total, _ => Zero())
  }

  lemma BlankHeader()
    ensures HeaderList(Zero()) == [] && EncodeHeader(Zero(), []) == Zero()
  {
  }

  // ------------------------------------------------------------------ runs, step by step

  const BOOT: State := State(Blank(), map[], [], map[], Boot, true, {}, map[], History(0, 0, 0, [], [], Blank()))

  /** One step of an operation that keeps to the budget and, if `room`, stays within the region. */
  ghost predicate StepsTo(budget: nat, room: bool, s: State, step: Step, s': State) {
    Enabled(MKFS, s, step) && s' == Do(MKFS, s, step) && KeepsTo(budget, s') && (room ==> HasRoom(MKFS, s, step))
  }

  /** A run as a list: the last step, the state before it, and how that state was reached. */
  datatype Trail = Origin | Next(prev: Trail, from: State, step: Step)

  /** Such tr lead from the start of the machine to state s. */
  ghost predicate Leads(budget: nat, room: bool, tr: Trail, s: State) {
    match tr
    case Origin => s == BOOT
    case Next(prev, from, step) => Leads(budget, room, prev, from) && StepsTo(budget, room, from, step, s)
  }

  lemma Go(budget: nat, room: bool, tr: Trail, s: State, step: Step, s': State) returns (tr': Trail)
    requires Leads(budget, room, tr, s) && StepsTo(budget, room, s, step, s')
    ensures Leads(budget, room, tr', s')
  {
    tr' := Next(tr, s, step);
  }

  lemma {:induction false} Relax(budget: nat, tr: Trail, s: State)
    requires Leads(budget, true, tr, s)
    ensures Leads(budget, false, tr, s)
  {
    if tr.Next? {
      Relax(budget, tr.prev, tr.from);
    }
  }

  lemma KeepsSnoc(budget: nat, q: Run, r: Run)
    requires RunKeepsTo(budget, q) && |r.states| == |q.states| + 1 && r.states[..|q.states|] == q.states
    requires KeepsTo(budget, r.states[|q.states|])
    ensures RunKeepsTo(budget, r)
  {
    forall k | 0 <= k < |r.states| ensures KeepsTo(budget, r.states[k]) {
      if k < |q.states| {
        assert r.states[k] == q.states[k];
      }
    }
  }

  lemma RunSnoc(budget: nat, room: bool, q: Run, step: Step, s: State) returns (r: Run)
    requires IsRun(MKFS, Blank(), q) && RunKeepsTo(budget, q)
    requires StepsTo(budget, room, q.states[|q.steps|], step, s)
    ensures IsRun(MKFS, Blank(), r) && RunKeepsTo(budget, r) && r.states[|r.steps|] == s
  {
    r := ExtendRun(MKFS, Blank(), q, step);
    KeepsSnoc(budget, q, r);
  }

  lemma {:induction false} LeadsIsRun(budget: nat, room: bool, tr: Trail, s: State) returns (r: Run)
    requires Leads(budget, room, tr, s)
    ensures IsRun(MKFS, Blank(), r) && RunKeepsTo(budget, r) && r.states[|r.steps|] == s
  {
    if tr.Origin? {
      r := Run([s], []);
    } else {
      r := LeadsIsRun(budget, room, tr.prev, tr.from);
      r := RunSnoc(budget, room, r, tr.step, s);
    }
  }

  /** bread and the change of a block that is not in the cache. */
  function Opened(s: State, p: Pid, b: nat): State {
    s.(cache := s.cache[b := Entry(Mark(), false, Some(p))], unlogged := s.unlogged + {b})
  }

  /** log_write after its test, and brelse. */
  function Closed(s: State, p: Pid, b: Word): State
    requires p in s.active
  {
    s.(lh := s.lh + [b],
       cache := s.cache[b as nat := Entry(Mark(), true, None)],
       unlogged := s.unlogged - {b},
       passed := s.passed - {p},
       hist := s.hist.(pending := s.hist.pending + [Write(s.active[p], b, Mark())]))
  }

  lemma SameKeeps(budget: nat, s: State, s': State)
    requires KeepsTo(budget, s) && s'.active == s.active && s'.hist.pending == s.hist.pending
    ensures KeepsTo(budget, s')
  {
  }

  lemma OpenSteps(s: State, p: Pid, b: nat)
    requires !s.recovering && |s.disk| == MKFS.total && p in s.active && p !in s.passed && b !in s.cache && MKFS.Home(b)
    ensures Enabled(MKFS, s, BRead(p, b))
    ensures var s1 := DoBRead(s, p, b);
            Enabled(MKFS, s1, Modify(p, b, Mark())) && DoModify(MKFS, s1, p, b, Mark()) == Opened(s, p, b)
  {
    assert DoModify(MKFS, DoBRead(s, p, b), p, b, Mark()).cache == Opened(s, p, b).cache;
  }

  lemma Open(budget: nat, room: bool, tr: Trail, s: State, p: Pid, b: nat) returns (tr': Trail)
    requires Leads(budget, room, tr, s) && KeepsTo(budget, s) && !s.recovering && |s.disk| == MKFS.total
    requires p in s.active && p !in s.passed && b !in s.cache && MKFS.Home(b)
    ensures Leads(budget, room, tr', Opened(s, p, b)) && KeepsTo(budget, Opened(s, p, b))
  {
    OpenSteps(s, p, b);
    var s1 := DoBRead(s, p, b);
    SameKeeps(budget, s, s1);
    SameKeeps(budget, s, Opened(s, p, b));
    tr' := Go(budget, room, tr, s, BRead(p, b), s1);
    tr' := Go(budget, room, tr', s1, Modify(p, b, Mark()), Opened(s, p, b));
  }

  lemma Test(budget: nat, room: bool, tr: Trail, s: State, p: Pid, b: nat) returns (tr': Trail)
    requires Leads(budget, room, tr, s) && KeepsTo(budget, s) && p !in s.passed && CanLogTest(MKFS, s, p, b)
    ensures Leads(budget, room, tr', DoLogTest(s, p, b)) && KeepsTo(budget, DoLogTest(s, p, b))
  {
    SameKeeps(budget, s, DoLogTest(s, p, b));
    tr' := Go(budget, room, tr, s, LogTest(p, b), DoLogTest(s, p, b));
  }

  /** The buffer is changed, and the process is past the test. */
  ghost predicate Passed(s: State, p: Pid, b: Word) {
    && p in s.active && MKFS.Home(b) && p in s.passed && s.passed[p] == b && b !in s.lh
    && b in s.cache && s.cache[b] == Entry(Mark(), false, Some(p))
  }

  lemma CloseSteps(s: State, p: Pid, b: Word)
    requires Passed(s, p, b)
    ensures Enabled(MKFS, s, LogWrite(p, b))
    ensures var s1 := DoLogWrite(MKFS, s, p, b);
            Enabled(MKFS, s1, BRelse(p, b)) && DoBRelse(s1, p, b) == Closed(s, p, b)
  {
    assert DoBRelse(DoLogWrite(MKFS, s, p, b), p, b).cache == Closed(s, p, b).cache;
  }

  lemma Close(budget: nat, room: bool, tr: Trail, s: State, p: Pid, b: Word, s': State)
    returns (tr': Trail)
    requires Leads(budget, room, tr, s) && Passed(s, p, b) && s' == Closed(s, p, b) && KeepsTo(budget, s')
    requires room ==> |s.lh| < MKFS.Capacity()
    ensures Leads(budget, room, tr', s')
  {
    CloseSteps(s, p, b);
    var s1 := DoLogWrite(MKFS, s, p, b);
    SameKeeps(budget, s', s1);
    tr' := Go(budget, room, tr, s, LogWrite(p, b), s1);
    tr' := Go(budget, room, tr', s1, BRelse(p, b), s');
  }

  // ------------------------------------------------ three operations that take turns

  const FIRST := 100     // blocks FIRST, FIRST + 1, ... are written

  const THREE: map<Pid, OpId> := map[0 := 0, 1 := 1, 2 := 2]

  function Homes(n: nat): (lh: seq<Word>)
    requires n <= LOGSIZE
    ensures |lh| == n
  {
    seq(n, i requires 0 <= i < n => FIRST + i)
  }

  function Writes(n: nat): (ws: seq<Write>)
    requires n <= LOGSIZE
    ensures |ws| == n
  {
    seq(n, i requires 0 <= i < n => Write(i % 3, FIRST + i, Mark()))
  }

  /** The header block, t slots of the log and the changed blocks are cached. */
  predicate Buffered(t: nat, b: nat) {
    2 <= b && (b <= 2 + t || FIRST <= b)
  }

  function Buffer(b: nat): Entry {
    if b == 2 then Entry(Zero(), false, None) else Entry(Mark(), FIRST <= b, None)
  }

  /** The cache after n changed blocks and t copies. */
  function Cached(n: nat, t: nat): Cache {
    map b: nat | b < FIRST + n && Buffered(t, b) :: Buffer(b)
  }

  function Filled(n: nat): State
    requires n <= LOGSIZE
  {
    State(Blank(), Cached(n, 0), Homes(n), THREE, Idle, false, {}, map[], History(3, 0, 0, Writes(n), [], Blank()))
  }

  /** No operation has logged more than its turn allows. */
  lemma {:induction false} Turns(n: nat, o: OpId)
    requires n <= LOGSIZE && o < 3
    ensures |BlocksBy(Writes(n), o)| <= (n + 2 - o) / 3
  {
    if n > 0 {
      Turns(n - 1, o);
      assert Writes(n) == Writes(n - 1) + [Write((n - 1) % 3, FIRST + n - 1, Mark())];
      BlocksBySnoc(Writes(n - 1), Write((n - 1) % 3, FIRST + n - 1, Mark()), o);
    }
  }

  ghost predicate Early(active: map<Pid, OpId>) {
    forall p :: p in active ==> active[p] < 3
  }

  lemma FilledKeeps(budget: nat, s: State, n: nat)
    requires budget >= MAXOPBLOCKS && n <= LOGSIZE && s.hist.pending == Writes(n)
    requires Early(s.active)
    ensures KeepsTo(budget, s)
  {
    forall p | p in s.active ensures |BlocksBy(s.hist.pending, s.active[p])| <= budget {
      Turns(n, s.active[p]);
    }
  }

  lemma FilledSnoc(n: nat)
    requires n < LOGSIZE
    ensures Homes(n + 1) == Homes(n) + [FIRST + n]
    ensures Writes(n + 1) == Writes(n) + [Write(n % 3, FIRST + n, Mark())]
    ensures FIRST + n !in Cached(n, 0) && FIRST + n !in Homes(n)
    ensures Cached(n + 1, 0) == Cached(n, 0)[FIRST + n := Entry(Mark(), true, None)]
  {
    assert Buffered(0, FIRST + n);
  }

  lemma NextFilled(n: nat)
    requires n < LOGSIZE
    ensures var p, b := n % 3, FIRST + n;
            && b !in Cached(n, 0) && Passed(DoLogTest(Opened(Filled(n), p, b), p, b), p, b)
            && Closed(DoLogTest(Opened(Filled(n), p, b), p, b), p, b) == Filled(n + 1)
  {
    FilledSnoc(n);
    var p, b := n % 3, FIRST + n;
    var s := Closed(DoLogTest(Opened(Filled(n), p, b), p, b), p, b);
    assert s.cache == Cached(n + 1, 0) && s.unlogged == {} && s.passed == map[];
  }

  lemma NextBlock(budget: nat, tr: Trail, n: nat, n': nat) returns (tr': Trail)
    requires budget >= MAXOPBLOCKS && n < MKFS.Capacity() && n' == n + 1 && Leads(budget, true, tr, Filled(n))
    ensures Leads(budget, true, tr', Filled(n'))
  {
    var p, b := n % 3, FIRST + n;
    NextFilled(n);
    FilledKeeps(budget, Filled(n), n);
    FilledKeeps(budget, Filled(n'), n');
    tr' := Open(budget, true, tr, Filled(n), p, b);
    var s := Opened(Filled(n), p, b);
    tr' := Test(budget, true, tr', s, p, b);
    tr' := Close(budget, true, tr', DoLogTest(s, p, b), p, b, Filled(n'));
  }

  /** The machine after recovery from an empty log. */
  function Recovered(n: nat): State
    requires n <= LOGSIZE
  {
    Filled(n).(active := map[], hist := History(0, 0, 0, Writes(n), [], Blank()))
  }

  lemma RecoverySteps(n: nat)
    requires n == 0
    ensures Enabled(MKFS, BOOT, ReadHead)
    ensures var s := DoReadHead(MKFS, BOOT);
            && Enabled(MKFS, s, ClearHead) && Enabled(MKFS, DoClearHead(MKFS, s), Return)
            && DoReturn(DoClearHead(MKFS, s)) == Recovered(n)
  {
    BlankHeader();
    var s := DoReadHead(MKFS, BOOT);
    assert s.lh == [];
    var t := DoClearHead(MKFS, s);
    assert t.disk == Blank() && t.cache == Cached(n, 0);
  }

  lemma Start(budget: nat, n: nat) returns (tr: Trail)
    requires budget >= MAXOPBLOCKS && n == 0
    ensures Leads(budget, true, tr, Recovered(n))
  {
    RecoverySteps(n);
    var s := DoReadHead(MKFS, BOOT);
    var t := DoClearHead(MKFS, s);
    tr := Go(budget, true, Origin, BOOT, ReadHead, s);
    tr := Go(budget, true, tr, s, ClearHead, t);
    tr := Go(budget, true, tr, t, Return, Recovered(n));
  }

  lemma NothingLogged(budget: nat, s: State)
    requires s.hist.pending == []
    ensures KeepsTo(budget, s)
  {
    assert forall o :: BlocksBy([], o) == {};
  }

  lemma OneBegins(budget: nat, tr: Trail, s: State, p: Pid) returns (tr': Trail)
    requires s.hist.pending == [] && Enabled(MKFS, s, BeginOp(p)) && Leads(budget, true, tr, s)
    ensures Leads(budget, true, tr', DoBeginOp(s, p))
  {
    var s' := DoBeginOp(s, p);
    NothingLogged(budget, s');
    tr' := Go(budget, true, tr, s, BeginOp(p), s');
  }

  lemma ThreeBegin(budget: nat, tr: Trail, n: nat) returns (tr': Trail)
    requires budget >= MAXOPBLOCKS && n == 0 && Leads(budget, true, tr, Recovered(n))
    ensures Leads(budget, true, tr', Filled(n))
  {
    var s := Recovered(n);
    var s1 := DoBeginOp(s, 0);
    var s2 := DoBeginOp(s1, 1);
    assert s1.active == map[0 := 0] && s2.active == map[0 := 0, 1 := 1];
    assert |s1.active| == 1 && |s2.active| == 2;
    tr' := OneBegins(budget, tr, s, 0);
    tr' := OneBegins(budget, tr', s1, 1);
    tr' := OneBegins(budget, tr', s2, 2);
    assert DoBeginOp(s2, 2) == Filled(n);
  }

  /** The log is filled to n blocks, and stays within its region. */
  lemma {:induction false} FillUp(budget: nat, n: nat) returns (tr: Trail)
    requires budget >= MAXOPBLOCKS && n <= MKFS.Capacity()
    ensures Leads(budget, true, tr, Filled(n))
  {
    if n == 0 {
      tr := Start(budget, n);
      tr := ThreeBegin(budget, tr, n);
    } else {
      tr := FillUp(budget, n - 1);
      tr := NextBlock(budget, tr, n - 1, n);
    }
  }

  // ----------------------------------------------------------- one block too many

  /** Operations 1 and 2 have both passed the test when the log holds n blocks. */
  function BothPassed(n: nat): State
    requires n <= LOGSIZE
  {
    var b, c := FIRST + n, FIRST + n + 1;
    DoLogTest(DoLogTest(Opened(Opened(Filled(n), 1, b), 2, c), 1, b), 2, c)
  }

  lemma TwoOpens(budget: nat, tr: Trail, s: State, b: nat, c: nat) returns (tr': Trail)
    requires Leads(budget, false, tr, s) && KeepsTo(budget, s) && !s.recovering && |s.disk| == MKFS.total
    requires 1 in s.active && 2 in s.active && s.passed == map[] && b != c
    requires b !in s.cache && c !in s.cache && MKFS.Home(b) && MKFS.Home(c)
    ensures var s2 := Opened(Opened(s, 1, b), 2, c); Leads(budget, false, tr', s2) && KeepsTo(budget, s2)
  {
    tr' := Open(budget, false, tr, s, 1, b);
    tr' := Open(budget, false, tr', Opened(s, 1, b), 2, c);
  }

  lemma TwoTests(budget: nat, tr: Trail, s: State, b: nat, c: nat) returns (tr': Trail)
    requires Leads(budget, false, tr, s) && KeepsTo(budget, s) && s.passed == map[]
    requires CanLogTest(MKFS, s, 1, b) && CanLogTest(MKFS, s, 2, c)
    ensures Leads(budget, false, tr', DoLogTest(DoLogTest(s, 1, b), 2, c))
  {
    tr' := Test(budget, false, tr, s, 1, b);
    tr' := Test(budget, false, tr', DoLogTest(s, 1, b), 2, c);
  }

  /** With room for one more block, operations 1 and 2 both pass the test. */
  lemma TwoPassTogether(budget: nat, n: nat) returns (tr: Trail)
    requires budget >= MAXOPBLOCKS && n < MKFS.Capacity()
    ensures Leads(budget, false, tr, BothPassed(n))
  {
    tr := FillUp(budget, n);
    Relax(budget, tr, Filled(n));
    FilledKeeps(budget, Filled(n), n);
    tr := TwoOpens(budget, tr, Filled(n), FIRST + n, FIRST + n + 1);
    tr := TwoTests(budget, tr, Opened(Opened(Filled(n), 1, FIRST + n), 2, FIRST + n + 1), FIRST + n, FIRST + n + 1);
  }

  /** Operation 2 alone has passed the test when the log holds n blocks. */
  function OnePassed(n: nat): State
    requires n <= LOGSIZE
  {
    var c := FIRST + n;
    Filled(n).(cache := Cached(n, 0)[c := Entry(Mark(), false, Some(2))], unlogged := {c}, passed := map[2 := c])
  }

  lemma Reordered(cache: Cache, b: nat, c: nat, x: Entry, y: Entry, z: Entry)
    requires b != c
    ensures cache[b := x][c := y][b := z] == cache[b := z][c := y]
  {
  }

  lemma FirstAppended(n: nat, n': nat)
    requires n' == n + 1 && n' < LOGSIZE && n % 3 == 1
    ensures Passed(BothPassed(n), 1, FIRST + n) && Closed(BothPassed(n), 1, FIRST + n) == OnePassed(n')
  {
    FilledSnoc(n);
    var b, c := FIRST + n, FIRST + n';
    Reordered(Cached(n, 0), b, c,
              Entry(Mark(), false, Some(1)), Entry(Mark(), false, Some(2)), Entry(Mark(), true, None));
    var s := Closed(BothPassed(n), 1, b);
    assert s.unlogged == {c} && s.passed == map[2 := c];
  }

  lemma SecondAppended(n: nat, n': nat)
    requires n' == n + 1 && n < LOGSIZE && n % 3 == 2
    ensures Passed(OnePassed(n), 2, FIRST + n) && Closed(OnePassed(n), 2, FIRST + n) == Filled(n')
  {
    FilledSnoc(n);
    var t := Closed(OnePassed(n), 2, FIRST + n);
    assert t.cache == Cached(n', 0) && t.unlogged == {} && t.passed == map[];
  }

  lemma FirstAppends(budget: nat, n: nat, n': nat) returns (tr: Trail)
    requires budget >= MAXOPBLOCKS && n < MKFS.Capacity() && n % 3 == 1 && n' == n + 1
    ensures Leads(budget, false, tr, OnePassed(n'))
  {
    tr := TwoPassTogether(budget, n);
    FirstAppended(n, n');
    FilledKeeps(budget, OnePassed(n'), n');
    tr := Close(budget, false, tr, BothPassed(n), 1, FIRST + n, OnePassed(n'));
  }

  lemma SecondAppends(budget: nat, n: nat, n': nat) returns (tr: Trail)
    requires budget >= MAXOPBLOCKS && 0 < n < LOGSIZE && n % 3 == 2 && n' == n + 1
    ensures Leads(budget, false, tr, Filled(n'))
  {
    tr := FirstAppends(budget, n - 1, n);
    SecondAppended(n, n');
    FilledKeeps(budget, Filled(n'), n');
    tr := Close(budget, false, tr, OnePassed(n), 2, FIRST + n, Filled(n'));
  }

  // -------------------------------------------------------------- the commit of that log

  function CopiedBlock(t: nat, b: nat): Block {
    if 2 < b <= 2 + t then Mark() else Zero()
  }

  function CopiedDisk(t: nat): (d: Image)
    requires t <= LOGSIZE
    ensures |d| == MKFS.total
  {
    seq(MKFS.total, b requires 0 <= b < MKFS.total => CopiedBlock(t, b))
  }

  /** The commit of n blocks after t copies. */
  function Copying(n: nat, t: nat): State
    requires t <= n <= LOGSIZE
  {
    State(CopiedDisk(t), Cached(n, t), Homes(n), map[], LogCopy(t), false, {}, map[],
          History(3, 0, 0, Writes(n), [], Blank()))
  }

  lemma CopyStep(n: nat, t: nat)
    requires t < n <= LOGSIZE
    ensures Enabled(MKFS, Copying(n, t), WriteLogBlock) && DoWriteLogBlock(MKFS, Copying(n, t)) == Copying(n, t + 1)
  {
    assert Buffered(t, FIRST + t);
    assert CopiedDisk(t)[3 + t := Mark()] == CopiedDisk(t + 1);
    assert Buffered(t + 1, 3 + t) && Clean(Cached(n, t), 3 + t, Mark()) == Cached(n, t + 1);
  }

  lemma NextCopy(budget: nat, tr: Trail, n: nat, t: nat, t': nat) returns (tr': Trail)
    requires t < n <= LOGSIZE && t' == t + 1 && Leads(budget, false, tr, Copying(n, t))
    ensures Leads(budget, false, tr', Copying(n, t'))
  {
    CopyStep(n, t);
    tr' := Go(budget, false, tr, Copying(n, t), WriteLogBlock, Copying(n, t'));
  }

  /** The log of n blocks when some operations have ended. */
  function Ending(n: nat, active: map<Pid, OpId>): State
    requires n <= LOGSIZE
  {
    Filled(n).(active := active)
  }

  lemma EndStep(n: nat, active: map<Pid, OpId>, p: Pid)
    requires 0 < n <= LOGSIZE && p in active
    ensures Enabled(MKFS, Ending(n, active), EndOp(p))
    ensures DoEndOp(Ending(n, active), p) ==
      if active - {p} != map[] then Ending(n, active - {p}) else Ending(n, active - {p}).(pc := LogCopy(0))
  {
    forall b | b in Cached(n, 0) ensures !HeldBy(Cached(n, 0), p, b) {
      }
  }

  lemma OneEnds(budget: nat, tr: Trail, n: nat, active: map<Pid, OpId>, p: Pid) returns (tr': Trail)
    requires budget >= MAXOPBLOCKS && 0 < n <= LOGSIZE && p in active && Early(active) && active - {p} != map[]
    requires Leads(budget, false, tr, Ending(n, active))
    ensures Leads(budget, false, tr', Ending(n, active - {p}))
  {
    EndStep(n, active, p);
    FilledKeeps(budget, Ending(n, active - {p}), n);
    tr' := Go(budget, false, tr, Ending(n, active), EndOp(p), Ending(n, active - {p}));
  }

  lemma LastEnds(budget: nat, tr: Trail, n: nat, active: map<Pid, OpId>, p: Pid, t: nat)
    returns (tr': Trail)
    requires budget >= MAXOPBLOCKS && 0 < n <= LOGSIZE && p in active && active - {p} == map[] && t == 0
    requires Leads(budget, false, tr, Ending(n, active))
    ensures Leads(budget, false, tr', Copying(n, t))
  {
    EndStep(n, active, p);
    FilledKeeps(budget, Copying(n, t), n);
    assert CopiedDisk(t) == Blank();
    tr' := Go(budget, false, tr, Ending(n, active), EndOp(p), Copying(n, t));
  }

  lemma ThreeLess() returns (two: map<Pid, OpId>, one: map<Pid, OpId>)
    ensures two == THREE - {0} && one == two - {1} && one - {2} == map[]
    ensures 1 in two && 2 in one && Early(THREE) && Early(two)
  {
    two, one := map[1 := 1, 2 := 2], map[2 := 2];
    assert THREE - {0} == two && two - {1} == one && one - {2} == map[];
  }

  lemma ThreeEnd(budget: nat, tr: Trail, n: nat, t: nat) returns (tr': Trail)
    requires budget >= MAXOPBLOCKS && 0 < n <= LOGSIZE && t == 0 && Leads(budget, false, tr, Filled(n))
    ensures Leads(budget, false, tr', Copying(n, t))
  {
    var two, one := ThreeLess();
    assert Filled(n) == Ending(n, THREE);
    tr' := OneEnds(budget, tr, n, THREE, 0);
    tr' := OneEnds(budget, tr', n, two, 1);
    tr' := LastEnds(budget, tr', n, one, 2, t);
  }

  lemma {:induction false} CopyUp(budget: nat, n: nat, t: nat) returns (tr: Trail)
    requires budget >= MAXOPBLOCKS && 2 < n <= LOGSIZE && n % 3 == 0 && t <= n
    ensures Leads(budget, false, tr, Copying(n, t))
  {
    if t > 0 {
      tr := CopyUp(budget, n, t - 1);
      tr := NextCopy(budget, tr, n, t - 1, t);
    } else {
      tr := SecondAppends(budget, n - 1, n);
      tr := ThreeEnd(budget, tr, n, t);
    }
  }

  /** The first inode block. */
  const INODES := 32

  /**
   A run of three operations within MAXOPBLOCKS, with a commit that has not reached its header:
   recovery finds an empty log, and the first inode block is overwritten.
   */
  lemma SpillRun(budget: nat) returns (r: Run, i: nat)
    requires budget >= MAXOPBLOCKS
    ensures IsRun(MKFS, Blank(), r) && RunKeepsTo(budget, r) && i < |r.states|
    ensures MKFS.Home(INODES) && !Atomic(MKFS, Blank(), r.states[i])
  {
    var n := LOGSIZE;
    var tr := CopyUp(budget, n, n);
    r := LeadsIsRun(budget, false, tr, Copying(n, n));
    i := |r.steps|;
    NotAtomic(n);
  }

  lemma NotAtomic(n: nat)
    requires n == LOGSIZE
    ensures !Atomic(MKFS, Blank(), Copying(n, n))
  {
    BlankHeader();
    var disk := CopiedDisk(n);
    assert HeaderList(disk[MKFS.start]) == [];
    assert Recover(MKFS, disk)[INODES] == Mark() != ApplyGroups(Blank(), [])[INODES];
  }

  /** Crash atomicity at every point of every run of operations that keep to the budget. */
  ghost predicate AlwaysAtomic(budget: nat) {
    forall image: Image, r: Run, i: nat ::
      IsRun(MKFS, image, r) && RunKeepsTo(budget, r) && i < |r.states| ==> Atomic(MKFS, image, r.states[i])
  }

  /**
   With the log that mkfs makes, crash atomicity holds exactly when every operation leaves at
   least one block of its MAXOPBLOCKS unused.
   */
  lemma CrashAtomicIff(budget: nat)
    ensures AlwaysAtomic(budget) <==> budget < MAXOPBLOCKS
  {
    if budget < MAXOPBLOCKS {
      forall image: Image, r: Run, i: nat | IsRun(MKFS, image, r) && RunKeepsTo(budget, r) && i < |r.states|
        ensures Atomic(MKFS, image, r.states[i])
      {
        BudgetedCrashAtomicity(budget, MKFS, image, r, i);
      }
    } else {
      var r, i := SpillRun(budget);
    }
  }
}
