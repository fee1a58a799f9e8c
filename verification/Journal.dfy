/**
 log.c as it is written, over the map from blocks to contents that the buffer cache stands
 for, proved to take only steps of the log machine: every single-block write in these
 methods is one step of a run, so the crash theorems of LogRuns hold between any two of
 them. `CachedBread` ties the buffer cache object to the same machine.
 */
module Journal {
  import opened Common
  import opened Blocks
  import opened LogMachine
  import opened LogSafety
  import opened LogRuns
  import opened BufferCache
  import opened Counting

  /** The machine goes from power-on with `image` to s by these steps, and the log stays within its region. */
  ghost predicate Reaches(L: Layout, image: Image, steps: seq<Step>, s: State)
    decreases |steps|, 1
  {
    if steps == [] then PowerOn(L, image, s) else exists t: State :: TakesStep(L, image, steps, t, s)
  }

  ghost predicate TakesStep(L: Layout, image: Image, steps: seq<Step>, t: State, s: State)
    requires steps != []
    decreases |steps|, 0
  {
    var last := |steps| - 1;
    && Reaches(L, image, steps[..last], t)
    && Enabled(L, t, steps[last]) && HasRoom(L, t, steps[last]) && s == Do(L, t, steps[last])
  }

  lemma ReachesSnoc(L: Layout, image: Image, steps: seq<Step>, s: State, step: Step)
    requires Reaches(L, image, steps, s) && Enabled(L, s, step) && HasRoom(L, s, step)
    ensures Reaches(L, image, steps + [step], Do(L, s, step))
  {
    assert (steps + [step])[..|steps|] == steps;
    assert TakesStep(L, image, steps + [step], s, Do(L, s, step));
  }

  lemma {:induction false} ReachesInv(L: Layout, image: Image, steps: seq<Step>, s: State)
    requires Reaches(L, image, steps, s)
    ensures Inv(L, s)
  {
    if steps != [] {
      var t :| TakesStep(L, image, steps, t, s);
      ReachesInv(L, image, steps[..|steps| - 1], t);
      KeepStep(L, t, steps[|steps| - 1]);
    }
  }

  /** What the methods trace is a run in the sense of the crash theorems. */
  lemma {:induction false} ReachesIsRun(L: Layout, image: Image, steps: seq<Step>, s: State) returns (r: Run)
    requires Reaches(L, image, steps, s)
    ensures IsRun(L, image, r) && Contained(L, r, |r.steps|) && r.steps == steps && r.states[|r.steps|] == s
  {
    if steps == [] {
      r := Run([s], []);
    } else {
      var last := |steps| - 1;
      var t :| TakesStep(L, image, steps, t, s);
      r := ReachesIsRun(L, image, steps[..last], t);
      r := ExtendRun(L, image, r, steps[last]);
      assert steps == steps[..last] + [steps[last]];
    }
  }

  // ------------------------------------------------------ facts the code relies on

  lemma LogFacts(L: Layout, image: Image, steps: seq<Step>, s: State)
    requires Reaches(L, image, steps, s)
    ensures |s.disk| == L.total && LogList(L, s.lh)
    ensures s.active != map[] ==> s.pc.Idle? && !s.recovering
    ensures !s.pc.Idle? ==> s.active == map[]
    ensures s.pc.Boot? ==> s.recovering
    ensures s.pc.LogCopy? ==> s.pc.tail <= |s.lh| && s.lh != [] && !s.recovering
    ensures s.pc.Install? ==> s.pc.tail <= |s.lh|
  {
    ReachesInv(L, image, steps, s);
  }

  /** The block that write_log copies is in the cache. */
  lemma LoggedIsCached(L: Layout, image: Image, steps: seq<Step>, s: State)
    requires Reaches(L, image, steps, s) && s.pc.LogCopy? && s.pc.tail < |s.lh|
    ensures s.lh[s.pc.tail] in s.cache && s.cache[s.lh[s.pc.tail]].dirty
  {
    ReachesInv(L, image, steps, s);
    assert s.lh[s.pc.tail] in Pinned(s.pc, s.recovering, s.lh);
  }

  lemma HeaderIsShort(L: Layout, image: Image, steps: seq<Step>, s: State)
    requires Reaches(L, image, steps, s) && s.pc.Boot?
    ensures L.start < |s.disk| && View(s.disk, s.cache, L.start)[0] <= LOGSIZE
  {
    ReachesInv(L, image, steps, s);
    LogRegionClean(L, s, L.start);
  }

  // ---------------------------------------------------- the writes of one operation

  ghost function WritesOf(op: OpId, ws: seq<(Word, Block)>): (r: seq<Write>)
    ensures |r| == |ws| && forall k :: 0 <= k < |ws| ==> r[k] == Write(op, ws[k].0, ws[k].1)
  {
    seq(|ws|, k requires 0 <= k < |ws| => Write(op, ws[k].0, ws[k].1))
  }

  ghost function BlockList(ws: seq<(Word, Block)>): (r: seq<Word>)
    ensures |r| == |ws| && forall k :: 0 <= k < |ws| ==> r[k] == ws[k].0
  {
    seq(|ws|, k requires 0 <= k < |ws| => ws[k].0)
  }

  /** The log has no more blocks than the operation has named, so there is room for one more. */
  lemma FewLogged(L: Layout, image: Image, steps: seq<Step>, s: State, ws: seq<(Word, Block)>, k: nat)
    requires Reaches(L, image, steps, s) && k < |ws| && Members(s.lh) == Members(BlockList(ws[..k]))
    requires |Members(BlockList(ws))| <= MAXOPBLOCKS < L.Capacity()
    ensures |s.lh| < L.Capacity()
  {
    LogFacts(L, image, steps, s);
    DistinctSize(s.lh);
    var few, all := Members(BlockList(ws[..k])), Members(BlockList(ws));
    forall b | b in few ensures b in all {
      var j :| 0 <= j < k && ws[..k][j].0 == b;
      assert BlockList(ws)[j] == b;
    }
    assert all == few + (all - few);
  }

  lemma NextLogged(op: OpId, ws: seq<(Word, Block)>, k: nat, lh: seq<Word>)
    requires k < |ws| && Members(lh) == Members(BlockList(ws[..k])) + {ws[k].0}
    ensures WritesOf(op, ws[..k + 1]) == WritesOf(op, ws[..k]) + [Write(op, ws[k].0, ws[k].1)]
    ensures Members(lh) == Members(BlockList(ws[..k + 1]))
  {
    var n := k + 1;
    assert ws[..n][..k] == ws[..k];
    assert BlockList(ws[..n]) == BlockList(ws[..k]) + [ws[k].0];
  }

  class Log {
    ghost const image: Image
    const L: Layout
    var disk: Image
    var cache: Cache
    var n: nat                     // log.lh.n
    const block: array<Word>       // log.lh.block
    var outstanding: nat
    var committing: bool
    var asleep: set<Pid>           // processes asleep on &log, in begin_op
    ghost var m: State             // the machine state these fields stand for
    ghost var steps: seq<Step>     // and the steps that led to it

    ghost predicate Valid()
      reads this, block
    {
      && block.Length == LOGSIZE && n <= LOGSIZE
      && m.disk == disk && m.cache == cache && m.lh == block[..n] && |m.active| == outstanding
      && (committing <==> !m.pc.Idle? && !m.recovering) && m.passed == map[]
      && (asleep != {} ==> MustWait() && !m.recovering)
      && Reaches(L, image, steps, m)
    }

    /** The conditions on which `begin_op` sleeps. */
    predicate MustWait()
      reads this
    {
      committing || n + (outstanding + 1) * MAXOPBLOCKS > LOGSIZE
    }

    /** No process has a buffer locked. */
    ghost predicate Released()
      reads this
    {
      forall b :: b in cache ==> cache[b].holder.None?
    }

    /** No operation and no commit under way. */
    ghost predicate Resting()
      reads this, block
    {
      Valid() && Released() && m.pc.Idle? && outstanding == 0 && n == 0 && !m.recovering && m.hist.pending == []
    }

    /** The machine follows the code. */
    ghost method Take(step: Step)
      requires Reaches(L, image, steps, m) && Enabled(L, m, step) && HasRoom(L, m, step)
      modifies this`m, this`steps
      ensures m == Do(L, old(m), step) && steps == old(steps) + [step]
      ensures Reaches(L, image, steps, m)
    {
      ReachesSnoc(L, image, steps, m, step);
      steps := steps + [step];
      m := Do(L, m, step);
    }

    /** Buffers that `bget` recycles: none that is locked or dirty. */
    ghost predicate Shrunk(was: Cache)
      reads this
    {
      && (forall b :: b in cache ==> b in was && cache[b] == was[b])
      && (forall b :: b in was && was[b].dirty ==> b in cache)
    }

    /** `bget` may have recycled any clean unlocked buffer. */
    method MaybeRecycleOne()
      requires Valid()
      modifies this`cache, this`m, this`steps
      ensures Valid() && m == old(m).(cache := cache) && Shrunk(old(cache))
    {
      if * {
        if v :| v in cache && cache[v].holder.None? && !cache[v].dirty {
          Take(Evict(v));
          cache := cache - {v};
        }
      }
    }

    /** For a pair of calls of `bread`. */
    method MaybeRecycle()
      requires Valid()
      modifies this`cache, this`m, this`steps
      ensures Valid() && m == old(m).(cache := cache) && Shrunk(old(cache))
    {
      MaybeRecycleOne();
      MaybeRecycleOne();
    }

    // ------------------------------------------------- buffer calls, by one process

    method Bread(pid: Pid, b: nat)
      requires b < |disk| && Free(cache, b)
      modifies this`cache
      ensures cache == Load(disk, old(cache), b, Some(pid))
    {
      cache := Load(disk, cache, b, Some(pid));
    }

    method Memmove(b: nat, data: Block)
      requires b in cache && cache[b].holder.Some?
      modifies this`cache
      ensures cache == old(cache)[b := old(cache)[b].(data := data)]
    {
      cache := cache[b := cache[b].(data := data)];
    }

    method Bwrite(b: nat)
      requires b in cache && cache[b].holder.Some? && b < |disk|
      modifies this`cache, this`disk
      ensures disk == old(disk)[b := old(cache)[b].data]
      ensures cache == old(cache)[b := old(cache)[b].(dirty := false)]
    {
      disk := disk[b := cache[b].data];
      cache := cache[b := cache[b].(dirty := false)];
    }

    method Brelse(b: nat)
      requires b in cache && cache[b].holder.Some?
      modifies this`cache
      ensures cache == old(cache)[b := old(cache)[b].(holder := None)]
    {
      cache := cache[b := cache[b].(holder := None)];
    }

    // -------------------------------------------------------------------- commit

    /** memmove from one locked buffer to another, bwrite of the latter, brelse of both. */
    method CopyAndRelease(from: nat, to: nat)
      requires to < |disk| && to != from && from in cache && to in cache
      requires cache[from].holder.Some? && cache[to].holder.Some?
      modifies this`disk, this`cache
      ensures disk == old(disk)[to := old(cache)[from].data]
      ensures cache == Clean(old(cache)[from := old(cache)[from].(holder := None)], to, old(cache)[from].data)
    {
      Memmove(to, cache[from].data);
      Bwrite(to);
      assert cache == old(cache)[to := Entry(old(cache)[from].data, false, old(cache)[to].holder)];
      Brelse(from);
      Brelse(to);
    }

    /** The calls in the loop body of `write_log`. */
    method CopyBlock(pid: Pid, to: nat, from: nat)
      requires to < |disk| && from < |disk| && to != from && from in cache
      requires Free(cache, to) && Free(cache, from)
      modifies this`disk, this`cache
      ensures disk == old(disk)[to := old(cache)[from].data]
      ensures cache == Clean(old(cache), to, old(cache)[from].data)
    {
      ghost var e := cache[from];
      Bread(pid, to);
      Bread(pid, from);
      CopyAndRelease(from, to);
      assert e.(holder := None) == e;
    }

    /** One iteration of `write_log`. */
    method CopyToLog(pid: Pid, tail: nat)
      requires Valid() && Released() && m.pc == LogCopy(tail) && tail < n
      modifies this`disk, this`cache, this`m, this`steps
      ensures Valid() && Released() && m.pc == LogCopy(tail + 1)
      ensures m.hist == old(m.hist) && m.active == old(m.active) && m.recovering == old(m.recovering)
    {
      MaybeRecycle();
      LogFacts(L, image, steps, m);
      LoggedIsCached(L, image, steps, m);
      assert m.lh[tail] == block[tail] && L.Home(m.lh[tail]);
      CopyBlock(pid, L.Slot(tail), block[tail]);
      Take(WriteLogBlock);
    }

    /** `write_log` */
    method WriteLog(pid: Pid)
      requires Valid() && Released() && m.pc == LogCopy(0)
      modifies this`disk, this`cache, this`m, this`steps
      ensures Valid() && Released() && m.pc == LogCopy(n)
      ensures m.hist == old(m.hist) && m.active == old(m.active) && m.recovering == old(m.recovering)
    {
      for tail := 0 to n
        invariant Valid() && Released() && m.pc == LogCopy(tail)
        invariant m.hist == old(m.hist) && m.active == old(m.active) && m.recovering == old(m.recovering)
      {
        CopyToLog(pid, tail);
      }
    }

    /** The calls in the loop body of `install_trans`. */
    method InstallOne(pid: Pid, slot: nat, home: nat)
      requires slot < |disk| && home < |disk| && slot != home
      requires Free(cache, slot) && Free(cache, home)
      modifies this`disk, this`cache
      ensures disk == old(disk)[home := old(View(disk, cache, slot))]
      ensures cache == Clean(Load(old(disk), old(cache), slot, None), home, old(View(disk, cache, slot)))
    {
      Bread(pid, slot);
      Bread(pid, home);
      CopyAndRelease(slot, home);
    }

    /** One iteration of `install_trans`. */
    method InstallFromLog(pid: Pid, tail: nat)
      requires Valid() && Released() && m.pc == Install(tail) && tail < n
      modifies this`disk, this`cache, this`m, this`steps
      ensures Valid() && Released() && m.pc == Install(tail + 1)
      ensures m.hist == old(m.hist) && m.active == old(m.active) && m.recovering == old(m.recovering)
    {
      MaybeRecycle();
      InstallSlot(pid, tail);
    }

    /** That iteration once both calls of bread have their buffers. */
    method InstallSlot(pid: Pid, tail: nat)
      requires Valid() && Released() && m.pc == Install(tail) && tail < n
      modifies this`disk, this`cache, this`m, this`steps
      ensures Valid() && Released() && m.pc == Install(tail + 1)
      ensures m.hist == old(m.hist) && m.active == old(m.active) && m.recovering == old(m.recovering)
    {
      LogFacts(L, image, steps, m);
      assert m.lh[tail] == block[tail] && L.Home(m.lh[tail]);
      InstallOne(pid, L.Slot(tail), block[tail]);
      Take(InstallBlock);
    }

    /** `install_trans` */
    method InstallTrans(pid: Pid)
      requires Valid() && Released() && m.pc == Install(0)
      modifies this`disk, this`cache, this`m, this`steps
      ensures Valid() && Released() && m.pc == Install(n)
      ensures m.hist == old(m.hist) && m.active == old(m.active) && m.recovering == old(m.recovering)
    {
      for tail := 0 to n
        invariant Valid() && Released() && m.pc == Install(tail)
        invariant m.hist == old(m.hist) && m.active == old(m.active) && m.recovering == old(m.recovering)
      {
        InstallFromLog(pid, tail);
      }
    }

    /** The loop of `write_head`: put the count and the block numbers into a header. */
    method FillHeader(h: Block) returns (e: Block)
      requires block.Length == LOGSIZE && n <= LOGSIZE
      ensures e == EncodeHeader(h, block[..n])
      ensures e[0] == n && forall j :: 0 < j < BLOCK_WORDS ==> e[j] == if j <= n then block[j - 1] else h[j]
    {
      e := h[0 := n];
      for i := 0 to n
        invariant |e| == BLOCK_WORDS && e[0] == n
        invariant forall j :: 0 <= j < i ==> e[1 + j] == block[j]
        invariant forall j :: i < j < BLOCK_WORDS ==> e[j] == h[j]
      {
        e := e[1 + i := block[i]];
      }
      forall j | 0 <= j < BLOCK_WORDS
        ensures e[j] == EncodeHeader(h, block[..n])[j]
        ensures 0 < j ==> e[j] == if j <= n then block[j - 1] else h[j]
      {
        if 1 <= j <= n {
          assert e[1 + (j - 1)] == block[j - 1];
        }
      }
    }

    /** `write_head` */
    method WriteHeadBlock(pid: Pid)
      requires block.Length == LOGSIZE && n <= LOGSIZE && L.start < |disk| && Free(cache, L.start)
      modifies this`disk, this`cache
      ensures var data := EncodeHeader(old(View(disk, cache, L.start)), block[..n]);
              disk == old(disk)[L.start := data] && cache == Clean(old(cache), L.start, data)
    {
      Bread(pid, L.start);
      var data := FillHeader(cache[L.start].data);
      Memmove(L.start, data);
      Bwrite(L.start);
      Brelse(L.start);
    }

    /** The write that commits the transaction. */
    method CommitHead(pid: Pid)
      requires Valid() && Released() && m.pc == LogCopy(n)
      modifies this`disk, this`cache, this`m, this`steps
      ensures Valid() && Released() && m.pc == Install(0)
      ensures m.hist == old(m.hist).Commit() && m.active == old(m.active) && m.recovering == old(m.recovering)
    {
      MaybeRecycle();
      LogFacts(L, image, steps, m);
      WriteHeadBlock(pid);
      Take(WriteHead);
    }

    /** `log.lh.n = 0; write_head()` */
    method EraseHead(pid: Pid)
      requires Valid() && Released() && m.pc == Install(n)
      modifies this`disk, this`cache, this`n, this`m, this`steps
      ensures Valid() && Released() && m.pc == Cleared && n == 0
      ensures m.hist == old(m.hist) && m.active == old(m.active) && m.recovering == old(m.recovering)
    {
      MaybeRecycle();
      LogFacts(L, image, steps, m);
      n := 0;
      assert block[..n] == [];
      WriteHeadBlock(pid);
      Take(ClearHead);
    }

    /** `commit` */
    method Commit(pid: Pid)
      requires Valid() && Released()
      requires m.pc == if n > 0 then LogCopy(0) else Cleared
      modifies this`disk, this`cache, this`n, this`m, this`steps
      ensures Valid() && Released() && m.pc == Cleared && n == 0
      ensures m.hist == if old(n) > 0 then old(m.hist).Commit() else old(m.hist)
      ensures m.active == old(m.active) && m.recovering == old(m.recovering)
    {
      if n > 0 {
        WriteLog(pid);
        CommitHead(pid);
        InstallTrans(pid);
        EraseHead(pid);
      }
    }

    // ---------------------------------------------------------------- operations

    /** `begin_op`: one pass of its loop; false means the process goes to sleep. */
    method BeginOp(pid: Pid) returns (ok: bool)
      requires Valid() && pid !in m.active && !m.recovering
      modifies this`outstanding, this`asleep, this`m, this`steps
      ensures Valid() && ok == old(CanBeginOp(m, pid)) && ok == !old(MustWait())
      ensures asleep == if ok then old(asleep) else old(asleep) + {pid}
      ensures if ok then m == DoBeginOp(old(m), pid) else m == old(m)
      ensures ok <==> !old(committing) && n + (old(outstanding) + 1) * 10 <= 30
      ensures outstanding == if ok then old(outstanding) + 1 else old(outstanding)
    {
      if committing {
        Sleep(pid);
        return false;
      } else if n + (outstanding + 1) * MAXOPBLOCKS > LOGSIZE {
        Sleep(pid);
        return false;
      }
      Admit(pid);
      return true;
    }

    /** `sleep(&log, &log.lock)` */
    method Sleep(pid: Pid)
      requires Valid() && MustWait() && !m.recovering
      modifies this`asleep
      ensures Valid() && asleep == old(asleep) + {pid}
    {
      asleep := asleep + {pid};
    }

    /** The end of `begin_op`. */
    method Admit(pid: Pid)
      requires Valid() && CanBeginOp(m, pid) && asleep == {}
      modifies this`outstanding, this`m, this`steps
      ensures Valid() && m == DoBeginOp(old(m), pid) && outstanding == old(outstanding) + 1
    {
      Take(LogMachine.BeginOp(pid));
      outstanding := outstanding + 1;
    }

    /** A caller of `log_write` first changes the data of a buffer it holds. */
    method Modify(pid: Pid, b: nat, data: Block)
      requires Valid() && pid in m.active && L.Home(b) && HeldBy(cache, pid, b)
      modifies this`cache, this`m, this`steps
      ensures Valid() && m == DoModify(L, old(m), pid, b, data)
    {
      Take(LogMachine.Modify(pid, b, data));
      Memmove(b, data);
    }

    /** The absorption loop of `log_write`: where the block is, or the end of the list. */
    method FindSlot(b: Word) returns (i: nat)
      requires block.Length == LOGSIZE && n <= LOGSIZE
      ensures i <= n && (i < n ==> block[i] == b) && forall j :: 0 <= j < i ==> block[j] != b
    {
      i := 0;
      while i < n && block[i] != b
        invariant i <= n && forall j :: 0 <= j < i ==> block[j] != b
      {
        i := i + 1;
      }
    }

    /** `log_write` by itself: its tests and its locked section; false is one of its two panics. */
    method LogWrite(pid: Pid, b: Word) returns (ok: bool)
      requires Valid() && L.Home(b) && HeldBy(cache, pid, b)
      requires outstanding > 0 ==> pid in m.active
      modifies this`cache, this`n, block, this`m, this`steps
      ensures Valid() && ok == (old(n) < L.Capacity() && outstanding > 0)
      ensures if ok then m == DoLogWrite(L, DoLogTest(old(m), pid, b), pid, b) else m == old(m)
      ensures ok <==> old(n) < 30 && old(n) < L.size - 1 && outstanding >= 1
      ensures ok ==>
        && cache == old(cache)[b as nat := Entry(old(cache)[b].data, true, Some(pid))]
        && block[..n] == if b in old(block[..n]) then old(block[..n]) else old(block[..n]) + [b]
      ensures !ok ==> cache == old(cache) && block[..n] == old(block[..n])
    {
      if n >= LOGSIZE || n >= L.size - 1 {
        return false;
      }
      if outstanding < 1 {
        return false;
      }
      assert m.active != map[];
      Take(LogTest(pid, b));
      AddBlock(b);
      cache := cache[b as nat := cache[b].(dirty := true)];
      Take(LogMachine.LogWrite(pid, b));
      return true;
    }

    /** The locked section of `log_write`, but for B_DIRTY: the block is appended, or was there. */
    method AddBlock(b: Word)
      requires block.Length == LOGSIZE && n < LOGSIZE
      modifies this`n, block
      ensures n <= LOGSIZE && block[..n] == if b in old(block[..n]) then old(block[..n]) else old(block[..n]) + [b]
    {
      var i := FindSlot(b);
      ghost var lh := block[..n];
      assert i < n ==> b == lh[i];
      block[i] := b;
      if i == n {
        n := n + 1;
      }
      assert block[..n] == if b in lh then lh else lh + [b];
    }

    /** bread, memmove, log_write and brelse of one block, as the callers of log_write do it. */
    method WriteBlock(pid: Pid, b: Word, data: Block) returns (ok: bool)
      requires Valid() && Released() && pid in m.active && L.Home(b) && outstanding > 0
      modifies this`cache, this`n, block, this`m, this`steps
      ensures ok == (old(n) < L.Capacity())
      ensures ok ==>
        && Valid() && Released() && m.pc == old(m.pc) && m.active == old(m.active) && m.recovering == old(m.recovering)
        && m.hist == old(m.hist).(pending := old(m.hist).pending + [Write(m.active[pid], b, data)])
        && m.lh == (if b in old(m.lh) then old(m.lh) else old(m.lh) + [b])
    {
      OpenBlock(pid, b);
      Modify(pid, b, data);
      ok := LogWrite(pid, b);
      if ok {
        CloseBlock(pid, b);
      }
    }

    /** `bread`, with whatever buffer it recycles. */
    method OpenBlock(pid: Pid, b: nat)
      requires Valid() && Released() && pid in m.active && L.Home(b)
      modifies this`cache, this`m, this`steps
      ensures Valid() && m == old(m).(cache := cache) && HeldBy(cache, pid, b) && Others(b)
    {
      MaybeRecycleOne();
      LogFacts(L, image, steps, m);
      Bread(pid, b);
      Take(BRead(pid, b));
    }

    /** `brelse` */
    method CloseBlock(pid: Pid, b: nat)
      requires Valid() && HeldBy(cache, pid, b) && b !in m.unlogged && Others(b)
      modifies this`cache, this`m, this`steps
      ensures Valid() && m == old(m).(cache := cache) && Released()
    {
      Brelse(b);
      Take(BRelse(pid, b));
    }

    /** No buffer is locked but perhaps that of block b. */
    ghost predicate Others(b: nat)
      reads this
    {
      forall x :: x in cache && x != b ==> cache[x].holder.None?
    }

    /** The only operation has written k of the blocks. */
    ghost predicate Logged(pid: Pid, hist0: History, ws: seq<(Word, Block)>, k: nat)
      reads this, block
    {
      && Valid() && Released() && m.pc.Idle? && m.active == map[pid := hist0.nextOp] && !m.recovering && k <= |ws|
      && m.hist == hist0.(nextOp := hist0.nextOp + 1, pending := WritesOf(hist0.nextOp, ws[..k]))
      && Members(m.lh) == Members(BlockList(ws[..k])) && (k == 0 ==> n == 0)
    }

    method LogNext(pid: Pid, ghost hist0: History, ws: seq<(Word, Block)>, k: nat)
      requires Logged(pid, hist0, ws, k) && k < |ws| && |Members(BlockList(ws))| <= MAXOPBLOCKS < L.Capacity()
      requires L.Home(ws[k].0)
      modifies this`cache, this`n, block, this`m, this`steps
      ensures Logged(pid, hist0, ws, k + 1)
    {
      FewLogged(L, image, steps, m, ws, k);
      var ok := WriteBlock(pid, ws[k].0, ws[k].1);
      NextLogged(hist0.nextOp, ws, k, m.lh);
    }

    /**
     A whole operation that writes the given blocks, with no other outstanding: begin_op, the
     writes, end_op. It is within its budget if it writes at most MAXOPBLOCKS distinct blocks;
     then no call panics or sleeps, and its writes are the next group.
     */
    method Transact(pid: Pid, ws: seq<(Word, Block)>)
      requires Resting() && |Members(BlockList(ws))| <= MAXOPBLOCKS < L.Capacity()
      requires forall k :: 0 <= k < |ws| ==> L.Home(ws[k].0)
      modifies this`disk, this`cache, this`n, this`outstanding, this`committing, this`asleep, block, this`m, this`steps
      ensures Resting()
      ensures ws == [] ==> m.hist.groups == old(m.hist).groups
      ensures ws != [] ==> m.hist.groups == old(m.hist).groups + [WritesOf(old(m.hist).nextOp, ws)]
    {
      LogFacts(L, image, steps, m);
      ghost var hist0 := m.hist;
      var ok := BeginOp(pid);
      ghost var op := hist0.nextOp;
      assert WritesOf(op, ws[..0]) == [];
      for k := 0 to |ws|
        invariant Logged(pid, hist0, ws, k)
      {
        LogNext(pid, hist0, ws, k);
      }
      assert ws[..|ws|] == ws;
      assert ws != [] ==> ws[0].0 in Members(m.lh);
      EndOp(pid);
    }

    /** `end_op`: the last operation commits the group, and whoever sleeps in begin_op is woken. */
    method EndOp(pid: Pid)
      requires Valid() && CanEndOp(m, pid)
      requires outstanding == 1 ==> Released()
      modifies this`disk, this`cache, this`n, this`outstanding, this`committing, this`asleep, this`m, this`steps
      ensures Valid() && asleep == {} && pid !in m.active && outstanding == old(outstanding) - 1 && !m.recovering
      ensures old(outstanding) == 1 ==> Released()
      ensures old(outstanding) > 1 ==> m == DoEndOp(old(m), pid)
      ensures old(outstanding) == 1 ==>
        && m.pc == Idle && n == 0 && m.active == map[]
        && m.hist == if old(n) > 0 then old(m.hist).Commit() else old(m.hist)
      ensures old(outstanding) == 1 ==> InPlace(L, old(block[..n]), old(cache), old(disk), disk)
      ensures old(outstanding) > 1 ==> disk == old(disk) && cache == old(cache) && n == old(n)
    {
      LogFacts(L, image, steps, m);
      ghost var steps0, m0 := steps, m;
      outstanding := outstanding - 1;
      if committing {
        assert false;   // panic("log.committing")
      }
      Take(LogMachine.EndOp(pid));
      if outstanding == 0 {
        committing := true;
        Commit(pid);
        Take(Return);
        committing := false;
        asleep := {};
        CommitInPlace(L, image, steps0, m0, steps, m);
      } else {
        asleep := {};
      }
    }

    // ------------------------------------------------------------------ recovery

    /** `initlog` on a disk that stands for `image0`. */
    constructor (L: Layout, disk: Image, ghost image0: Image)
      requires Represents(L, disk, image0)
      ensures Valid() && Released() && fresh(block) && this.L == L && this.disk == disk && image == image0
      ensures m == State(disk, map[], [], map[], Boot, true, {}, map[], History(0, 0, 0, [], [], image0))
    {
      this.L := L;
      this.disk := disk;
      image := image0;
      cache := map[];
      n := 0;
      block := new Word[LOGSIZE];
      outstanding := 0;
      committing, asleep := false, {};
      m := State(disk, map[], [], map[], Boot, true, {}, map[], History(0, 0, 0, [], [], image0));
      steps := [];
      new;
      assert block[..n] == [];
    }

    /** The loop of `read_head`. */
    method LoadHeader(h: Block)
      requires block.Length == LOGSIZE && h[0] <= LOGSIZE
      modifies this`n, block
      ensures n == h[0] && block[..n] == HeaderList(h)
      ensures forall j :: 0 <= j < n ==> block[j] == h[1 + j]
    {
      n := h[0];
      for i := 0 to n
        invariant n == h[0] && forall j :: 0 <= j < i ==> block[j] == h[1 + j]
      {
        block[i] := h[1 + i];
      }
    }

    /** `read_head` */
    method ReadHead(pid: Pid)
      requires Valid() && Released() && m.pc == Boot
      modifies this`cache, this`n, block, this`m, this`steps
      ensures Valid() && Released() && m.pc == Install(0)
      ensures m.hist == old(m.hist) && m.active == old(m.active) && m.recovering == old(m.recovering)
    {
      HeaderIsShort(L, image, steps, m);
      LoadFromDisk(pid);
      Take(LogMachine.ReadHead);
    }

    /** The calls of `read_head`. */
    method LoadFromDisk(pid: Pid)
      requires block.Length == LOGSIZE && L.start < |disk| && Free(cache, L.start)
      requires View(disk, cache, L.start)[0] <= LOGSIZE
      modifies this`cache, this`n, block
      ensures cache == Load(disk, old(cache), L.start, None)
      ensures n <= LOGSIZE && block[..n] == HeaderList(old(View(disk, cache, L.start)))
    {
      Bread(pid, L.start);
      LoadHeader(cache[L.start].data);
      Brelse(L.start);
    }

    /** `recover_from_log` leaves the recovered image in place and an empty log. */
    method RecoverFromLog(pid: Pid)
      requires Valid() && Released() && m.pc == Boot
      modifies this`disk, this`cache, this`n, block, this`m, this`steps
      ensures Valid() && Released() && m.pc == Idle && n == 0 && m.hist == old(m.hist)
      ensures m.active == old(m.active) && !m.recovering
      ensures |disk| == |old(m.hist).durable| == L.total && HeaderList(disk[L.start]) == []
      ensures forall b :: L.Home(b) ==> disk[b] == old(m.hist).durable[b]
      ensures Recovered(L, old(disk), disk)
    {
      LogFacts(L, image, steps, m);
      ghost var steps0, m0 := steps, m;
      ReadHead(pid);
      InstallTrans(pid);
      EraseHead(pid);
      Take(Return);
      IdleDisk(L, image, steps, m);
      RecoveredDisk(L, image, steps0, m0, steps, m);
    }
  }

  /**
   After a commit every logged block has on disk what its buffer held, every other home block
   what it had, and the header counts no block.
   */
  ghost predicate InPlace(L: Layout, lh: seq<Word>, cache: Cache, disk: Image, disk': Image) {
    && |disk'| == |disk| == L.total && disk'[L.start][0] == 0
    && (forall b :: b in lh ==> b in cache && cache[b].dirty)
    && (forall b :: L.Home(b) ==> disk'[b] == if b in lh then cache[b].data else disk[b])
  }

  /** Recovery copies every log block to the home block that the header names for it, and changes no other. */
  ghost predicate Recovered(L: Layout, disk: Image, disk': Image) {
    && |disk'| == |disk| == L.total && disk'[L.start][0] == 0
    && Named(L, disk, disk[L.start], disk')
  }

  /** The home blocks after the header h is applied to the disk. */
  ghost predicate Named(L: Layout, disk: Image, h: Block, image: Image) {
    && |image| == |disk| == L.total && h[0] <= 30
    && (forall j :: 1 <= j <= h[0] ==> L.Home(h[j]) && L.start + j < L.total && image[h[j]] == disk[L.start + j])
    && (forall b :: L.Home(b) && b !in h[1..1 + h[0]] ==> image[b] == disk[b])
  }

  /** The header on disk names what the durable image takes from the log region. */
  lemma DurableNamed(L: Layout, image: Image, steps: seq<Step>, s: State)
    requires Reaches(L, image, steps, s)
    ensures |s.disk| == L.total && Named(L, s.disk, s.disk[L.start], s.hist.durable)
  {
    ReachesInv(L, image, steps, s);
    RepresentsNamed(L, s.disk, s.hist.durable);
  }

  lemma RepresentsNamed(L: Layout, disk: Image, image: Image)
    requires Represents(L, disk, image)
    ensures Named(L, disk, disk[L.start], image)
  {
    var h := disk[L.start];
    assert HeaderList(h) == h[1..1 + h[0]];
    forall j | 1 <= j <= h[0]
      ensures L.Home(h[j]) && L.start + j < L.total && image[h[j]] == disk[L.start + j]
    {
      var i := j - 1;
      assert HeaderList(h)[i] == h[j];
      assert L.Slot(i) == L.start + j;
    }
  }

  lemma RecoveredDisk(L: Layout, image: Image, steps: seq<Step>, s: State, steps': seq<Step>, s': State)
    requires Reaches(L, image, steps, s) && Reaches(L, image, steps', s') && s'.pc.Idle? && s'.hist == s.hist
    ensures Recovered(L, s.disk, s'.disk)
  {
    DurableNamed(L, image, steps, s);
    IdleDisk(L, image, steps', s');
    EmptyHeader(L, image, steps', s');
    NamedAlike(L, s.disk, s.disk[L.start], s.hist.durable, s'.disk);
  }

  lemma NamedAlike(L: Layout, disk: Image, h: Block, image: Image, image': Image)
    requires Named(L, disk, h, image) && |image'| == L.total && forall b :: L.Home(b) ==> image'[b] == image[b]
    ensures Named(L, disk, h, image')
  {
    forall j | 1 <= j <= h[0] ensures L.Home(h[j]) && image'[h[j]] == disk[L.start + j] {
      assert L.Home(h[j]) && image[h[j]] == disk[L.start + j];
    }
  }

  lemma EmptyHeader(L: Layout, image: Image, steps: seq<Step>, s: State)
    requires Reaches(L, image, steps, s) && s.pc.Idle?
    ensures |s.disk| == L.total && s.disk[L.start][0] == 0
  {
    ReachesInv(L, image, steps, s);
    assert |HeaderList(s.disk[L.start])| == s.disk[L.start][0];
  }

  /** The commit of a group puts the buffers it logged in place. */
  lemma CommitInPlace(L: Layout, image: Image, steps: seq<Step>, s: State, steps': seq<Step>, s': State)
    requires Reaches(L, image, steps, s) && s.pc.Idle? && forall b :: b in s.cache ==> s.cache[b].holder.None?
    requires Reaches(L, image, steps', s') && s'.pc.Idle?
    requires s'.hist == if s.lh != [] then s.hist.Commit() else s.hist
    ensures InPlace(L, s.lh, s.cache, s.disk, s'.disk)
  {
    BuffersAreLogical(L, image, steps, s);
    IdleDisk(L, image, steps', s');
    EmptyHeader(L, image, steps', s');
  }

  /** When no buffer is locked, running operations see the logged buffers and the disk. */
  lemma BuffersAreLogical(L: Layout, image: Image, steps: seq<Step>, s: State)
    requires Reaches(L, image, steps, s) && s.pc.Idle?
    requires forall b :: b in s.cache ==> s.cache[b].holder.None?
    ensures |s.hist.durable| == |s.disk| == L.total && forall b :: b in s.lh ==> b in s.cache && s.cache[b].dirty
    ensures forall b :: L.Home(b) ==> s.hist.Logical()[b] == if b in s.lh then s.cache[b].data else s.disk[b]
    ensures forall b :: L.Home(b) ==> s.hist.durable[b] == s.disk[b]
  {
    ReachesInv(L, image, steps, s);
    forall b | L.Home(b) ensures s.hist.Logical()[b] == if b in s.lh then s.cache[b].data else s.disk[b] {
      if b in s.lh {
        assert b !in s.unlogged;
      } else {
        ApplyUntouched(s.hist.durable, s.hist.pending, b);
      }
    }
  }

  /** Between commits the home blocks on disk are the durable image. */
  lemma IdleDisk(L: Layout, image: Image, steps: seq<Step>, s: State)
    requires Reaches(L, image, steps, s) && s.pc.Idle?
    ensures |s.disk| == |s.hist.durable| == L.total && HeaderList(s.disk[L.start]) == []
    ensures forall b :: L.Home(b) ==> s.disk[b] == s.hist.durable[b]
  {
    ReachesInv(L, image, steps, s);
  }

  // ------------------------------------------------------ the buffer cache object

  /**
   `bread` of the buffer cache takes the steps Evict, if it recycles a buffer, and BRead of the
   machine: cache and log compose.
   */
  method CachedBread(c: BCache, pid: Pid, b: nat, L: Layout, ghost image: Image, ghost steps: seq<Step>, ghost s: State)
    returns (r: Option<nat>, waits: bool, ghost steps': seq<Step>, ghost s': State)
    requires c.Valid() && b < |c.disk| && Reaches(L, image, steps, s) && !s.recovering && Acts(s, pid)
    requires s.cache == c.Abs() && s.disk == c.disk
    modifies c`bufs, c`where
    ensures c.Valid() && Reaches(L, image, steps', s') && s'.cache == c.Abs() && s'.disk == c.disk
    ensures s' == s.(cache := s'.cache) && steps <= steps'
    ensures r.None? || waits ==> s' == s
    ensures r.Some? && !waits ==> HeldBy(s'.cache, pid, b) && s'.cache[b].data == View(s.disk, s.cache, b)
  {
    ghost var evicted;
    r, waits, evicted := c.Bread(pid, b);
    steps', s' := steps, s;
    if r.Some? && !waits {
      steps', s' := ReadSteps(L, image, steps, s, pid, b, evicted);
    }
  }

  lemma ReadSteps(L: Layout, image: Image, steps: seq<Step>, s: State, pid: Pid, b: nat, evicted: Option<nat>)
    returns (steps': seq<Step>, s': State)
    requires Reaches(L, image, steps, s) && !s.recovering && b < |s.disk| && Free(s.cache, b) && Acts(s, pid)
    requires evicted.Some? ==> CanEvict(s, evicted.value) && evicted.value != b
    ensures Reaches(L, image, steps', s') && steps <= steps'
    ensures s' == s.(cache := Load(s.disk, if evicted.Some? then s.cache - {evicted.value} else s.cache, b, Some(pid)))
    ensures HeldBy(s'.cache, pid, b) && s'.cache[b].data == View(s.disk, s.cache, b)
  {
    steps', s' := steps, s;
    if evicted.Some? {
      ReachesSnoc(L, image, steps, s, Evict(evicted.value));
      steps', s' := steps + [Evict(evicted.value)], DoEvict(s, evicted.value);
    }
    ReachesSnoc(L, image, steps', s', BRead(pid, b));
    steps', s' := steps' + [BRead(pid, b)], DoBRead(s', pid, b);
  }

  lemma DirtyIsPinned(L: Layout, s: State, bufs: seq<Buf>, where: map<nat, nat>, i: nat)
    requires Inv(L, s) && WellKeyed(bufs, where, L.total) && WellUsed(bufs) && Contents(bufs, where, L.total) == s.cache
    requires i < |bufs| && bufs[i].dirty
    ensures bufs[i].blockno in Pinned(s.pc, s.recovering, s.lh)
  {
    var b := bufs[i].blockno;
    assert bufs[i].dev == ROOTDEV && b in where && where[b] == i;
    assert s.cache[b].dirty;
  }

  /** The blocks that the log pins. */
  ghost function PinnedBlocks(s: State): set<nat> {
    set b | b in Pinned(s.pc, s.recovering, s.lh)
  }

  /** The blocks whose buffers some process holds or waits for. */
  ghost function Referenced(bufs: seq<Buf>): set<nat> {
    set i | 0 <= i < |bufs| && bufs[i].refcnt > 0 :: bufs[i].blockno
  }

  lemma BusyBlocks(L: Layout, s: State, bufs: seq<Buf>, where: map<nat, nat>)
    requires Inv(L, s) && WellKeyed(bufs, where, L.total) && WellUsed(bufs) && Contents(bufs, where, L.total) == s.cache
    ensures Busy(bufs) == PinnedBlocks(s) + Referenced(bufs)
  {
    forall i | 0 <= i < |bufs| && !Recyclable(bufs[i]) ensures bufs[i].blockno in PinnedBlocks(s) + Referenced(bufs) {
      if bufs[i].refcnt == 0 {
        DirtyIsPinned(L, s, bufs, where, i);
      }
    }
    forall b | b in PinnedBlocks(s) ensures b in Busy(bufs) {
      assert b in s.cache && s.cache[b].dirty && !Recyclable(bufs[where[b]]);
    }
  }

  /**
   In every state that the log reaches, the panic "bget: no buffers" hits `bread` of a block
   without a buffer exactly when the blocks that the log pins, and those whose buffers some
   process holds or waits for, are NBUF together.
   */
  lemma PanicsForBuffersIff(L: Layout, image: Image, steps: seq<Step>, s: State, bufs: seq<Buf>, where: map<nat, nat>,
                            b: nat)
    requires Reaches(L, image, steps, s)
    requires |bufs| == NBUF && WellKeyed(bufs, where, L.total) && WellUsed(bufs)
    requires Contents(bufs, where, L.total) == s.cache
    ensures !FindsBuffer(bufs, where, b) <==> b !in s.cache && |PinnedBlocks(s) + Referenced(bufs)| >= NBUF
  {
    ReachesInv(L, image, steps, s);
    BusyBlocks(L, s, bufs, where);
    FindsBufferIff(bufs, where, L.total, b);
  }

  /** No buffer is referenced, but perhaps that of one block. */
  ghost predicate OneReferenced(bufs: seq<Buf>, held: Option<Word>) {
    forall i :: 0 <= i < |bufs| ==> bufs[i].refcnt == 0 || held == Some(bufs[i].blockno)
  }

  /**
   With the log that mkfs makes (LOGSIZE blocks), the panic "bget: no buffers" cannot hit a
   commit or a recovery while no other process has a buffer. Their first bread of a round finds
   every buffer released; the log pins at most NBUF - 1 of them. The second, with the buffer of
   the log block in hand, is of a block that is pinned, or nothing is pinned.
   */
  lemma CommitFindsBuffers(L: Layout, image: Image, steps: seq<Step>, s: State, bufs: seq<Buf>, where: map<nat, nat>,
                           held: Option<Word>, b: nat)
    requires Reaches(L, image, steps, s) && L.size <= NBUF
    requires |bufs| == NBUF && WellKeyed(bufs, where, L.total) && WellUsed(bufs)
    requires Contents(bufs, where, L.total) == s.cache
    requires OneReferenced(bufs, held)
    requires held.Some? ==> (s.pc.LogCopy? || s.pc.Install?) && s.pc.tail < |s.lh| && b == s.lh[s.pc.tail]
    ensures FindsBuffer(bufs, where, b)
  {
    ReachesInv(L, image, steps, s);
    LogFacts(L, image, steps, s);
    var pinned := Pinned(s.pc, s.recovering, s.lh);
    if held.Some? && b in pinned {
      assert b in s.cache;
    } else {
      var few := if held.Some? then pinned + [held.value] else pinned;
      forall i | 0 <= i < NBUF && bufs[i].dirty ensures bufs[i].blockno in few {
        DirtyIsPinned(L, s, bufs, where, i);
      }
      SomeBufferRecyclable(bufs, where, L.total, few);
    }
  }
}
