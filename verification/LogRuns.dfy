/**
 Crash atomicity over whole runs: any interleaving of operations, commits, crashes
 (in the middle of a commit or of a recovery, any number of times) and recoveries.
 */
module LogRuns {
  import opened Common
  import opened Blocks
  import opened LogMachine
  import opened LogSafety

  datatype Run = Run(states: seq<State>, steps: seq<Step>)

  /** Power on with a disk that stands for `image`. */
  ghost predicate PowerOn(L: Layout, image: Image, s: State) {
    && Represents(L, s.disk, image)
    && s == State(s.disk, map[], [], map[], Boot, true, {}, map[], History(0, 0, 0, [], [], image))
  }

  ghost predicate IsRun(L: Layout, image: Image, r: Run) {
    && |r.states| == |r.steps| + 1
    && PowerOn(L, image, r.states[0])
    && forall i {:trigger StepAt(L, r, i)} :: 0 <= i < |r.steps| ==> StepAt(L, r, i)
  }

  ghost predicate StepAt(L: Layout, r: Run, i: nat)
    requires i < |r.steps| && |r.states| == |r.steps| + 1
  {
    Enabled(L, r.states[i], r.steps[i]) && r.states[i + 1] == Do(L, r.states[i], r.steps[i])
  }

  /** In the first i steps the log never outgrows its region. */
  ghost predicate Contained(L: Layout, r: Run, i: nat) {
    && i <= |r.steps| <= |r.states|
    && forall k {:trigger RoomAt(L, r, k)} :: 0 <= k < i ==> RoomAt(L, r, k)
  }

  ghost predicate RoomAt(L: Layout, r: Run, k: nat)
    requires k < |r.steps| <= |r.states|
  {
    HasRoom(L, r.states[k], r.steps[k])
  }

  /** One step more. */
  lemma ExtendRun(L: Layout, image: Image, q: Run, step: Step) returns (r: Run)
    requires IsRun(L, image, q) && Enabled(L, q.states[|q.steps|], step)
    ensures IsRun(L, image, r) && r.steps == q.steps + [step] && r.states[..|q.states|] == q.states
    ensures r.states[|r.steps|] == Do(L, q.states[|q.steps|], step)
    ensures Contained(L, q, |q.steps|) && HasRoom(L, q.states[|q.steps|], step) ==> Contained(L, r, |r.steps|)
  {
    r := Run(q.states + [Do(L, q.states[|q.steps|], step)], q.steps + [step]);
    forall i | 0 <= i < |r.steps|
      ensures StepAt(L, r, i)
      ensures Contained(L, q, |q.steps|) && HasRoom(L, q.states[|q.steps|], step) ==> RoomAt(L, r, i)
    {
      if i < |q.steps| {
        assert StepAt(L, q, i);
        assert Contained(L, q, |q.steps|) ==> RoomAt(L, q, i);
      }
    }
  }

  lemma KeepStep(L: Layout, s: State, step: Step)
    requires Inv(L, s) && Enabled(L, s, step) && HasRoom(L, s, step)
    ensures Inv(L, Do(L, s, step))
  {
    match step
    case BeginOp(pid) => KeepBeginOp(L, s, pid);
    case BRead(pid, b) => KeepBRead(L, s, pid, b);
    case Modify(pid, b, data) => KeepModify(L, s, pid, b, data);
    case LogTest(pid, b) => KeepLogTest(L, s, pid, b);
    case LogWrite(pid, b) => KeepLogWrite(L, s, pid, b);
    case BRelse(pid, b) => KeepBRelse(L, s, pid, b);
    case Evict(b) => KeepEvict(L, s, b);
    case EndOp(pid) => KeepEndOp(L, s, pid);
    case WriteLogBlock => KeepWriteLogBlock(L, s);
    case WriteHead => KeepWriteHead(L, s);
    case InstallBlock => KeepInstallBlock(L, s);
    case ClearHead => KeepClearHead(L, s);
    case Return => KeepReturn(L, s);
    case Crash => KeepCrash(L, s);
    case ReadHead => KeepReadHead(L, s);
  }

  lemma {:induction false} InvAlongRun(L: Layout, image: Image, r: Run, i: nat)
    requires IsRun(L, image, r) && i < |r.states| && Contained(L, r, i)
    ensures Inv(L, r.states[i])
  {
    if i > 0 {
      InvAlongRun(L, image, r, i - 1);
      assert StepAt(L, r, i - 1) && RoomAt(L, r, i - 1);
      KeepStepAt(L, r, i - 1);
    }
  }

  lemma KeepStepAt(L: Layout, r: Run, k: nat)
    requires k < |r.steps| && |r.states| == |r.steps| + 1 && StepAt(L, r, k) && RoomAt(L, r, k) && Inv(L, r.states[k])
    ensures Inv(L, r.states[k + 1])
  {
    KeepStep(L, r.states[k], r.steps[k]);
  }

  // ------------------------------------------------- recovery as a function

  /** The disk after `install_trans` from entry t on. */
  function InstallAll(L: Layout, disk: Image, h: seq<Word>, t: nat): (r: Image)
    requires t <= |h| && forall i :: 0 <= i < |h| ==> L.Slot(i) < |disk| && h[i] < |disk|
    ensures |r| == |disk|
    decreases |h| - t
  {
    if t == |h| then disk else InstallAll(L, disk[h[t] := disk[L.Slot(t)]], h, t + 1)
  }

  /** The header names blocks of the disk. */
  predicate Readable(L: Layout, disk: Image) {
    && |disk| == L.total
    && var h := HeaderList(disk[L.start]); forall i :: 0 <= i < |h| ==> L.Slot(i) < |disk| && h[i] < |disk|
  }

  /** What `recover_from_log`, run to the end, leaves on a disk. */
  function Recover(L: Layout, disk: Image): (r: Image)
    requires Readable(L, disk)
    ensures |r| == |disk|
  {
    var installed := InstallAll(L, disk, HeaderList(disk[L.start]), 0);
    installed[L.start := EncodeHeader(installed[L.start], [])]
  }

  lemma {:induction false} InstallAllRepresents(L: Layout, disk: Image, image: Image, t: nat)
    requires Represents(L, disk, image) && t <= |HeaderList(disk[L.start])|
    requires forall i :: 0 <= i < t ==> disk[HeaderList(disk[L.start])[i]] == image[HeaderList(disk[L.start])[i]]
    ensures var h := HeaderList(disk[L.start]);
            var d := InstallAll(L, disk, h, t);
            && Represents(L, d, image) && HeaderList(d[L.start]) == h
            && forall i :: 0 <= i < |h| ==> d[h[i]] == image[h[i]]
    decreases |HeaderList(disk[L.start])| - t
  {
    var h := HeaderList(disk[L.start]);
    if t < |h| {
      InstallKeepsImage(L, disk, image, t);
      InstallAllRepresents(L, disk[h[t] := image[h[t]]], image, t + 1);
    }
  }

  /** Recovery turns any disk that stands for an image into that image, with an empty log. */
  lemma RecoverRestores(L: Layout, disk: Image, image: Image)
    requires Represents(L, disk, image)
    ensures forall b :: L.Home(b) ==> Recover(L, disk)[b] == image[b]
    ensures HeaderList(Recover(L, disk)[L.start]) == []
  {
    InstallAllRepresents(L, disk, image, 0);
    EraseKeepsImage(L, InstallAll(L, disk, HeaderList(disk[L.start]), 0), image);
  }

  // ------------------------------------------------------------- whole runs

  /** The durable image is the initial one with the committed groups applied in order. */
  lemma {:induction false} DurableIsCommittedGroups(L: Layout, image: Image, r: Run, i: nat)
    requires IsRun(L, image, r) && i < |r.states|
    ensures r.states[i].hist.durable == ApplyGroups(image, r.states[i].hist.groups)
  {
    if i > 0 {
      DurableIsCommittedGroups(L, image, r, i - 1);
      assert StepAt(L, r, i - 1);
      DurableStep(L, image, r.states[i - 1], r.steps[i - 1]);
    }
  }

  lemma DurableStep(L: Layout, image: Image, s: State, step: Step)
    requires Enabled(L, s, step) && s.hist.durable == ApplyGroups(image, s.hist.groups)
    ensures var h := Do(L, s, step).hist; h.durable == ApplyGroups(image, h.groups)
  {
    if step.WriteHead? {
      assert (s.hist.groups + [s.hist.pending])[..|s.hist.groups|] == s.hist.groups;
    }
  }

  /**
   Crash atomicity.  Cut the power at any point of any run in which the log has not outgrown
   its region: recovery leaves exactly the image made by the groups committed so far, applied
   whole and in order.
   */
  lemma CrashAtomicity(L: Layout, image: Image, r: Run, i: nat)
    requires IsRun(L, image, r) && i < |r.states| && Contained(L, r, i)
    ensures Represents(L, r.states[i].disk, r.states[i].hist.durable)
    ensures forall b :: L.Home(b) ==>
              Recover(L, r.states[i].disk)[b] == ApplyGroups(image, r.states[i].hist.groups)[b]
  {
    InvAlongRun(L, image, r, i);
    DurableIsCommittedGroups(L, image, r, i);
    RecoverRestores(L, r.states[i].disk, r.states[i].hist.durable);
  }

  lemma StepKeepsGroups(L: Layout, s: State, step: Step)
    requires Enabled(L, s, step)
    ensures s.hist.groups <= Do(L, s, step).hist.groups
  {
  }

  lemma {:induction false} PrefixChain<T>(s: seq<seq<T>>, i: nat, j: nat)
    requires i <= j < |s| && forall k :: 0 < k < |s| ==> s[k - 1] <= s[k]
    ensures s[i] <= s[j]
  {
    if i < j {
      PrefixChain(s, i, j - 1);
    }
  }

  /** A committed group is never lost: the list of groups only grows. */
  lemma CommittedGroupsStay(L: Layout, image: Image, r: Run, i: nat, j: nat)
    requires IsRun(L, image, r) && i <= j < |r.states|
    ensures r.states[i].hist.groups <= r.states[j].hist.groups
  {
    var gs := seq(|r.states|, k requires 0 <= k < |r.states| => r.states[k].hist.groups);
    forall k | 0 < k < |gs| ensures gs[k - 1] <= gs[k] {
      assert StepAt(L, r, k - 1);
      StepKeepsGroups(L, r.states[k - 1], r.steps[k - 1]);
    }
    PrefixChain(gs, i, j);
  }

  /** The cache in front of the disk shows the logical image, in every phase of a commit. */
  lemma ViewIsLogical(L: Layout, s: State, b: nat)
    requires Inv(L, s) && L.Home(b) && !s.recovering && b !in s.unlogged
    ensures View(s.disk, s.cache, b) == s.hist.Logical()[b]
  {
    var pinned := Pinned(s.pc, s.recovering, s.lh);
    if b !in s.lh {
      LogicalOutsideLog(L, s, b);
      assert b !in pinned;
    } else if s.pc.Install? {
      SuffixContains(s.lh, s.pc.tail);
    }
  }

  lemma SuffixContains(lh: seq<Word>, t: nat)
    requires t <= |lh|
    ensures forall k :: t <= k < |lh| ==> lh[k] in lh[t..]
  {
    forall k | t <= k < |lh| ensures lh[k] in lh[t..] {
      assert lh[t..][k - t] == lh[k];
    }
  }

  /** Every read gets the contents last logged. */
  lemma ReadsSeeLastLogged(L: Layout, image: Image, r: Run, i: nat, b: nat)
    requires IsRun(L, image, r) && i < |r.states| && Contained(L, r, i) && L.Home(b)
    requires !r.states[i].recovering && b !in r.states[i].unlogged
    ensures |r.states[i].disk| == |r.states[i].hist.durable| == L.total
    ensures View(r.states[i].disk, r.states[i].cache, b) == r.states[i].hist.Logical()[b]
  {
    InvAlongRun(L, image, r, i);
    ViewIsLogical(L, r.states[i], b);
  }

  /** No logged block reaches its home before the header is on disk. */
  lemma NoInstallBeforeCommitPoint(L: Layout, image: Image, r: Run, i: nat, b: nat)
    requires IsRun(L, image, r) && i < |r.states| && Contained(L, r, i) && L.Home(b)
    requires r.states[i].pc.Idle? || r.states[i].pc.LogCopy?
    ensures |r.states[i].disk| == |image| == L.total
    ensures r.states[i].disk[b] == ApplyGroups(image, r.states[i].hist.groups)[b]
  {
    InvAlongRun(L, image, r, i);
    DurableIsCommittedGroups(L, image, r, i);
  }

  // -------------------------------------------------- operations are atomic

  /** The writes of operation o in a list. */
  function OpWrites(ws: seq<Write>, o: OpId): seq<Write> {
    if ws == [] then []
    else OpWrites(ws[..|ws| - 1], o) + (if ws[|ws| - 1].op == o then [ws[|ws| - 1]] else [])
  }

  function OpWritesIn(gs: seq<seq<Write>>, o: OpId): seq<Write> {
    if gs == [] then [] else OpWritesIn(gs[..|gs| - 1], o) + OpWrites(gs[|gs| - 1], o)
  }

  /** The write issued by a step, if operation o issued one. */
  ghost function IssuedBy(s: State, step: Step, o: OpId): seq<Write> {
    if step.LogWrite? && step.pid in s.active && step.b in s.cache && step.b < UINT && s.active[step.pid] == o
    then [Write(o, step.b, s.cache[step.b].data)] else []
  }

  /** The log_writes that operation o has issued in the first k steps of a run. */
  ghost function Issued(r: Run, k: nat, o: OpId): seq<Write>
    requires k <= |r.steps| < |r.states|
  {
    if k == 0 then [] else Issued(r, k - 1, o) + IssuedBy(r.states[k - 1], r.steps[k - 1], o)
  }

  lemma {:induction false} OpWritesAbsent(ws: seq<Write>, o: OpId)
    requires forall i :: 0 <= i < |ws| ==> ws[i].op != o
    ensures OpWrites(ws, o) == []
  {
    if ws != [] {
      OpWritesAbsent(ws[..|ws| - 1], o);
    }
  }

  /** Where the writes of operation o stand after k steps. */
  ghost predicate Accounted(h: History, issued: seq<Write>, o: OpId) {
    var done := OpWritesIn(h.groups, o);
    && (o >= h.nextOp ==> issued == [])
    && (o >= h.boundary ==> done == [] && OpWrites(h.pending, o) == issued)
    && (h.epoch <= o < h.boundary ==> done == issued)
    && (o < h.epoch ==> done == issued || done == [])
  }

  lemma AccountedLogWrite(h: History, w: Write, issued: seq<Write>, o: OpId)
    requires Accounted(h, issued, o) && h.epoch <= h.boundary <= w.op < h.nextOp
    ensures Accounted(h.(pending := h.pending + [w]), if w.op == o then issued + [w] else issued, o)
  {
    assert (h.pending + [w])[..|h.pending|] == h.pending;
  }

  lemma AccountedCommit(h: History, issued: seq<Write>, o: OpId)
    requires Accounted(h, issued, o) && h.epoch <= h.boundary <= h.nextOp
    requires forall i :: 0 <= i < |h.pending| ==> h.boundary <= h.pending[i].op < h.nextOp
    ensures Accounted(h.Commit(), issued, o)
  {
    assert h.Commit().groups[..|h.groups|] == h.groups;
    if o < h.boundary || o >= h.nextOp {
      OpWritesAbsent(h.pending, o);
    }
  }

  lemma AccountedStep(L: Layout, s: State, step: Step, issued: seq<Write>, o: OpId)
    requires Current(s.hist, s.active) && Enabled(L, s, step) && Accounted(s.hist, issued, o)
    ensures Accounted(Do(L, s, step).hist, issued + IssuedBy(s, step, o), o)
  {
    assert issued + [] == issued;
    if step.LogWrite? {
      AccountedLogWrite(s.hist, Write(s.active[step.pid], step.b, s.cache[step.b].data), issued, o);
    } else if step.WriteHead? {
      AccountedCommit(s.hist, issued, o);
    }
  }

  /** The order of operations and groups, which holds however large the log is. */
  ghost predicate Ordered(s: State) {
    && Current(s.hist, s.active) && PendingInLog(s.pc, s.lh, s.hist.pending)
    && (!s.pc.Idle? ==> s.active == map[])
  }

  lemma KeepOrdered(L: Layout, s: State, step: Step)
    requires Ordered(s) && Enabled(L, s, step)
    ensures Ordered(Do(L, s, step))
  {
    if step.LogWrite? {
      LogWriteOrdered(L, s, step.pid, step.b);
    } else if step.EndOp? {
      EndOpOrdered(L, s, step.pid);
    }
  }

  lemma LogWriteOrdered(L: Layout, s: State, pid: Pid, b: nat)
    requires Ordered(s) && CanLogWrite(L, s, pid, b)
    ensures Ordered(DoLogWrite(L, s, pid, b))
  {
    var w := Write(s.active[pid], b, s.cache[b].data);
    LogWriteStaysCurrent(s.hist, s.active, pid, w);
    LogWriteStaysInLog(s.lh, s.hist.pending, w);
  }

  lemma EndOpOrdered(L: Layout, s: State, pid: Pid)
    requires Ordered(s) && CanEndOp(s, pid)
    ensures Ordered(DoEndOp(s, pid))
  {
    assert s.hist.pending != [] ==> s.hist.pending[0].block in s.lh;
  }

  lemma LogWriteStaysInLog(lh: seq<Word>, pending: seq<Write>, w: Write)
    requires PendingInLog(Idle, lh, pending)
    ensures PendingInLog(Idle, if w.block in lh then lh else lh + [w.block], pending + [w])
  {
  }

  lemma {:induction false} AccountedAlongRun(L: Layout, image: Image, r: Run, i: nat, o: OpId)
    requires IsRun(L, image, r) && i < |r.states|
    ensures Ordered(r.states[i]) && Accounted(r.states[i].hist, Issued(r, i, o), o)
  {
    if i > 0 {
      AccountedAlongRun(L, image, r, i - 1, o);
      assert StepAt(L, r, i - 1);
      AccountedStep(L, r.states[i - 1], r.steps[i - 1], Issued(r, i - 1, o), o);
      KeepOrdered(L, r.states[i - 1], r.steps[i - 1]);
    }
  }

  /**
   An operation is all or nothing.  At any point of any run the committed groups hold
   either every write it has issued or none, and they hold every write of every
   operation since the last crash when a commit is about to return.
   */
  lemma OperationsAreAtomic(L: Layout, image: Image, r: Run, i: nat, o: OpId)
    requires IsRun(L, image, r) && i < |r.states|
    ensures var done := OpWritesIn(r.states[i].hist.groups, o);
            && (done == Issued(r, i, o) || done == [])
            && (r.states[i].pc.Cleared? && o >= r.states[i].hist.epoch ==> done == Issued(r, i, o))
  {
    AccountedAlongRun(L, image, r, i, o);
  }
}
