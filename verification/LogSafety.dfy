/** Every step of the log machine keeps its invariant. */
module LogSafety {
  import opened Common
  import opened Blocks
  import opened LogMachine

  lemma {:induction false} ApplySnoc(d: seq<Block>, ws: seq<Write>, w: Write)
    requires w.block < |d|
    ensures Apply(d, ws + [w]) == Apply(d, ws)[w.block := w.data]
  {
    assert (ws + [w])[..|ws|] == ws;
  }

  lemma {:induction false} ApplyUntouched(d: seq<Block>, ws: seq<Write>, b: nat)
    requires b < |d| && forall i :: 0 <= i < |ws| ==> ws[i].block != b
    ensures Apply(d, ws)[b] == d[b]
  {
    if ws != [] {
      ApplyUntouched(d, ws[..|ws| - 1], b);
    }
  }

  /** Home blocks that are not in the log hold their logical contents on disk. */
  lemma LogicalOutsideLog(L: Layout, s: State, b: nat)
    requires Inv(L, s) && L.Home(b) && b !in s.lh
    ensures s.hist.Logical()[b] == s.hist.durable[b]
  {
    ApplyUntouched(s.hist.durable, s.hist.pending, b);
  }

  lemma LogicalOnlyDiffersInLog(L: Layout, s: State)
    requires Inv(L, s)
    ensures forall b :: L.Home(b) && b !in s.lh ==> s.hist.Logical()[b] == s.hist.durable[b]
  {
    forall b | L.Home(b) && b !in s.lh ensures s.hist.Logical()[b] == s.hist.durable[b] {
      LogicalOutsideLog(L, s, b);
    }
  }

  /** `bwrite` of an unpinned block keeps the cache in step with the disk. */
  lemma WriteThroughKeepsCache(cache: Cache, disk: Image, pinned: seq<Word>, image: Image, b: nat, data: Block)
    requires CleanAgrees(cache, disk, {}) && PinnedDirty(cache, pinned, {}, image)
    requires b < |disk| && b !in pinned
    ensures CleanAgrees(Clean(cache, b, data), disk[b := data], {})
    ensures PinnedDirty(Clean(cache, b, data), pinned, {}, image)
  {
  }

  lemma KeepBeginOp(L: Layout, s: State, pid: Pid)
    requires Inv(L, s) && CanBeginOp(s, pid)
    ensures Inv(L, DoBeginOp(s, pid))
  {
  }

  lemma KeepBRead(L: Layout, s: State, pid: Pid, b: nat)
    requires Inv(L, s) && CanBRead(s, b)
    ensures Inv(L, DoBRead(s, pid, b))
  {
  }

  lemma KeepModify(L: Layout, s: State, pid: Pid, b: nat, data: Block)
    requires Inv(L, s) && CanModify(L, s, pid, b)
    ensures Inv(L, DoModify(L, s, pid, b, data))
  {
  }

  /** `log_write` pins the buffer with its present contents as the logical ones. */
  lemma LogWritePins(cache: Cache, disk: Image, lh: seq<Word>, unlogged: set<nat>, logical: Image, b: Word)
    requires b in cache && b < |logical|
    requires PinnedDirty(cache, lh, unlogged, logical) && CleanAgrees(cache, disk, unlogged)
    ensures var cache' := cache[b := cache[b].(dirty := true)];
            && CleanAgrees(cache', disk, unlogged - {b})
            && PinnedDirty(cache', if b in lh then lh else lh + [b], unlogged - {b}, logical[b := cache[b].data])
  {
  }

  lemma LogWriteExtendsHeader(L: Layout, lh: seq<Word>, pending: seq<Write>, w: Write)
    requires LogList(L, lh) && (w.block in lh || |lh| < L.Capacity()) && L.Home(w.block)
    requires PendingInLog(Idle, lh, pending)
    ensures var lh' := if w.block in lh then lh else lh + [w.block];
            LogList(L, lh') && w.block in lh' && PendingInLog(Idle, lh', pending + [w])
  {
  }

  lemma LogWriteKeepsMemory(L: Layout, s: State, pid: Pid, b: nat)
    requires Inv(L, s) && CanLogWrite(L, s, pid, b) && HasRoom(L, s, LogWrite(pid, b))
    ensures var s' := DoLogWrite(L, s, pid, b);
            && LogList(L, s'.lh)
            && PinnedDirty(s'.cache, s'.lh, s'.unlogged, s.hist.Logical()[b := s.cache[b].data])
            && CleanAgrees(s'.cache, s'.disk, s'.unlogged)
            && ChangesLocked(L, s'.cache, s'.unlogged, s'.active)
  {
    LogWriteExtendsHeader(L, s.lh, s.hist.pending, Write(s.active[pid], b, s.cache[b].data));
    LogWritePins(s.cache, s.disk, s.lh, s.unlogged, s.hist.Logical(), b);
  }

  lemma LogWriteStaysCurrent(h: History, active: map<Pid, OpId>, pid: Pid, w: Write)
    requires Current(h, active) && pid in active && w.op == active[pid]
    ensures Current(h.(pending := h.pending + [w]), active)
  {
  }

  lemma KeepLogTest(L: Layout, s: State, pid: Pid, b: nat)
    requires Inv(L, s) && CanLogTest(L, s, pid, b)
    ensures Inv(L, DoLogTest(s, pid, b))
  {
  }

  lemma KeepLogWrite(L: Layout, s: State, pid: Pid, b: nat)
    requires Inv(L, s) && CanLogWrite(L, s, pid, b) && HasRoom(L, s, LogWrite(pid, b))
    ensures Inv(L, DoLogWrite(L, s, pid, b))
  {
    var w := Write(s.active[pid], b, s.cache[b].data);
    LogWriteExtendsHeader(L, s.lh, s.hist.pending, w);
    LogWriteKeepsMemory(L, s, pid, b);
    LogWriteStaysCurrent(s.hist, s.active, pid, w);
    ApplySnoc(s.hist.durable, s.hist.pending, w);
  }

  lemma KeepBRelse(L: Layout, s: State, pid: Pid, b: nat)
    requires Inv(L, s) && CanBRelse(s, pid, b)
    ensures Inv(L, DoBRelse(s, pid, b))
  {
  }

  /** A clean unlocked buffer is neither pinned nor being changed. */
  lemma EvictKeepsCache(L: Layout, cache: Cache, disk: Image, pinned: seq<Word>, unlogged: set<nat>, logical: Image,
                        active: map<Pid, OpId>, b: nat)
    requires PinnedDirty(cache, pinned, unlogged, logical) && CleanAgrees(cache, disk, unlogged)
    requires ChangesLocked(L, cache, unlogged, active) && b in cache && cache[b].holder.None? && !cache[b].dirty
    ensures PinnedDirty(cache - {b}, pinned, unlogged, logical) && CleanAgrees(cache - {b}, disk, unlogged)
    ensures ChangesLocked(L, cache - {b}, unlogged, active)
  {
    assert b !in pinned && b !in unlogged;
  }

  lemma KeepEvict(L: Layout, s: State, b: nat)
    requires Inv(L, s) && CanEvict(s, b)
    ensures Inv(L, DoEvict(s, b))
  {
    EvictKeepsCache(L, s.cache, s.disk, Pinned(s.pc, s.recovering, s.lh), s.unlogged, s.hist.Logical(), s.active, b);
  }

  lemma KeepEndOp(L: Layout, s: State, pid: Pid)
    requires Inv(L, s) && CanEndOp(s, pid)
    ensures Inv(L, DoEndOp(s, pid))
  {
    var s' := DoEndOp(s, pid);
  }

  /** With an empty header, a write to a log block changes nothing that the disk stands for. */
  lemma SlotWriteKeepsImage(L: Layout, disk: Image, image: Image, t: nat, data: Block)
    requires Represents(L, disk, image) && HeaderList(disk[L.start]) == [] && L.Slot(t) < L.start + L.size
    ensures Represents(L, disk[L.Slot(t) := data], image)
  {
  }

  lemma LogCopyAdvances(L: Layout, disk: Image, lh: seq<Word>, logical: Image, durable: Image, t: nat)
    requires |disk| == |logical| == |durable| == L.total && LogList(L, lh) && t < |lh|
    requires Progress(L, LogCopy(t), disk, lh, logical, durable)
    ensures L.Slot(t) < |disk| && Progress(L, LogCopy(t + 1), disk[L.Slot(t) := logical[lh[t]]], lh, logical, durable)
  {
    var disk' := disk[L.Slot(t) := logical[lh[t]]];
    forall i | 0 <= i < t + 1 ensures disk'[L.Slot(i)] == logical[lh[i]] {
      if i < t {
        assert disk[L.Slot(i)] == logical[lh[i]];
      }
    }
  }

  /** What `write_log` copies is the logical contents. */
  lemma LogCopyData(L: Layout, s: State)
    requires Inv(L, s) && CanWriteLogBlock(L, s)
    ensures View(s.disk, s.cache, s.lh[s.pc.tail]) == s.hist.Logical()[s.lh[s.pc.tail]]
  {
    assert s.lh[s.pc.tail] in Pinned(s.pc, s.recovering, s.lh);
    NothingUnlogged(L, s);
  }

  lemma LogCopyKeepsDisk(L: Layout, s: State)
    requires Inv(L, s) && CanWriteLogBlock(L, s)
    ensures Represents(L, DoWriteLogBlock(L, s).disk, s.hist.durable)
    ensures var s' := DoWriteLogBlock(L, s);
            Progress(L, s'.pc, s'.disk, s'.lh, s'.hist.Logical(), s'.hist.durable)
  {
    LogCopyData(L, s);
    SlotWriteKeepsImage(L, s.disk, s.hist.durable, s.pc.tail, s.hist.Logical()[s.lh[s.pc.tail]]);
    LogCopyAdvances(L, s.disk, s.lh, s.hist.Logical(), s.hist.durable, s.pc.tail);
  }

  lemma KeepWriteLogBlock(L: Layout, s: State)
    requires Inv(L, s) && CanWriteLogBlock(L, s)
    ensures Inv(L, DoWriteLogBlock(L, s))
  {
    LogCopyKeepsDisk(L, s);
    NothingUnlogged(L, s);
    WriteThroughKeepsCache(s.cache, s.disk, s.lh, s.hist.Logical(), L.Slot(s.pc.tail),
                           View(s.disk, s.cache, s.lh[s.pc.tail]));
  }

  /** The commit point: the header write makes the disk stand for the logical image. */
  lemma CommitPoint(L: Layout, disk: Image, durable: Image, logical: Image, lh: seq<Word>)
    requires Represents(L, disk, durable) && HeaderList(disk[L.start]) == []
    requires |logical| == L.total && LogList(L, lh)
    requires forall i :: 0 <= i < |lh| ==> disk[L.Slot(i)] == logical[lh[i]]
    requires forall b :: L.Home(b) && b !in lh ==> logical[b] == durable[b]
    ensures var disk' := disk[L.start := EncodeHeader(disk[L.start], lh)];
            HeaderList(disk'[L.start]) == lh && Represents(L, disk', logical)
  {
    HeaderRoundTrip(disk[L.start], lh);
  }

  lemma WriteHeadDisk(L: Layout, s: State)
    requires Inv(L, s) && CanWriteHead(L, s)
    ensures var s' := DoWriteHead(L, s);
            && Represents(L, s'.disk, s'.hist.durable) && |s'.hist.Logical()| == L.total
            && Progress(L, s'.pc, s'.disk, s'.lh, s'.hist.Logical(), s'.hist.durable)
  {
    LogRegionClean(L, s, L.start);
    LogicalOnlyDiffersInLog(L, s);
    CommitPoint(L, s.disk, s.hist.durable, s.hist.Logical(), s.lh);
  }

  lemma WriteHeadCache(L: Layout, s: State)
    requires Inv(L, s) && CanWriteHead(L, s)
    ensures var s' := DoWriteHead(L, s);
            && PinnedDirty(s'.cache, Pinned(s'.pc, s'.recovering, s'.lh), s'.unlogged, s'.hist.Logical())
            && CleanAgrees(s'.cache, s'.disk, s'.unlogged)
  {
    NothingUnlogged(L, s);
    FromTheFirst(s.lh);
    WriteThroughKeepsCache(s.cache, s.disk, s.lh, s.hist.Logical(), L.start,
                           EncodeHeader(View(s.disk, s.cache, L.start), s.lh));
  }

  lemma KeepWriteHead(L: Layout, s: State)
    requires Inv(L, s) && CanWriteHead(L, s)
    ensures Inv(L, DoWriteHead(L, s))
  {
    NothingUnlogged(L, s);
    WriteHeadDisk(L, s);
    WriteHeadCache(L, s);
  }

  lemma FromTheFirst<T>(s: seq<T>)
    ensures s[0..] == s
  {
  }

  /** A block of the log region is never dirty, so its cached copy is what is on disk. */
  lemma LogRegionClean(L: Layout, s: State, b: nat)
    requires Inv(L, s) && b < L.total && !L.Home(b)
    ensures View(s.disk, s.cache, b) == s.disk[b]
  {
    assert b !in Pinned(s.pc, s.recovering, s.lh);
  }

  /** Outside operations no buffer differs from what was logged. */
  lemma NothingUnlogged(L: Layout, s: State)
    requires Inv(L, s) && !s.pc.Idle?
    ensures s.unlogged == {}
  {
  }

  /** Copying a log block to its home keeps what the disk stands for. */
  lemma InstallKeepsImage(L: Layout, disk: Image, image: Image, t: nat)
    requires Represents(L, disk, image) && t < |HeaderList(disk[L.start])|
    ensures var b := HeaderList(disk[L.start])[t];
            L.Home(b) && disk[L.Slot(t)] == image[b] && Represents(L, disk[b := image[b]], image)
  {
  }

  lemma InstallAdvances(L: Layout, disk: Image, lh: seq<Word>, logical: Image, image: Image, t: nat)
    requires |disk| == |logical| == |image| == L.total && LogList(L, lh) && t < |lh|
    requires Progress(L, Install(t), disk, lh, logical, image)
    ensures Progress(L, Install(t + 1), disk[lh[t] := image[lh[t]]], lh, logical, image)
  {
  }

  /** Once everything is installed, erasing the header keeps what the disk stands for. */
  lemma EraseKeepsImage(L: Layout, disk: Image, image: Image)
    requires Represents(L, disk, image)
    requires forall i :: 0 <= i < |HeaderList(disk[L.start])| ==>
               disk[HeaderList(disk[L.start])[i]] == image[HeaderList(disk[L.start])[i]]
    ensures var disk' := disk[L.start := EncodeHeader(disk[L.start], [])];
            HeaderList(disk'[L.start]) == [] && Represents(L, disk', image)
  {
    HeaderRoundTrip(disk[L.start], []);
    var h := HeaderList(disk[L.start]);
    forall b | L.Home(b) ensures disk[b] == image[b] {
      if b in h {
        var i :| 0 <= i < |h| && h[i] == b;
      }
    }
  }

  /** The cache side of one iteration of `install_trans`. */
  lemma InstallKeepsCache(cache: Cache, disk: Image, pinned: seq<Word>, pinned': seq<Word>, image: Image,
                          slot: nat, b: Word)
    requires CleanAgrees(cache, disk, {}) && PinnedDirty(cache, pinned, {}, image)
    requires slot < |disk| && b < |disk| && slot != b && slot !in pinned
    requires b !in pinned' && forall x :: x in pinned ==> x == b || x in pinned'
    requires forall x :: x in pinned' ==> x in pinned
    ensures var cache' := Clean(Load(disk, cache, slot, None), b, disk[slot]);
            && CleanAgrees(cache', disk[b := disk[slot]], {})
            && PinnedDirty(cache', pinned', {}, image)
  {
  }

  /** Installing block t unpins it and nothing else. */
  lemma InstallUnpins(L: Layout, lh: seq<Word>, t: nat, recovering: bool)
    requires LogList(L, lh) && t < |lh|
    ensures var pinned, pinned' := Pinned(Install(t), recovering, lh), Pinned(Install(t + 1), recovering, lh);
            && L.Slot(t) !in pinned && lh[t] !in pinned'
            && (forall x :: x in pinned ==> x == lh[t] || x in pinned')
            && (forall x :: x in pinned' ==> x in pinned)
  {
    assert lh[t..] == [lh[t]] + lh[t + 1..];
  }

  lemma InstallBlockDisk(L: Layout, s: State)
    requires Inv(L, s) && CanInstallBlock(L, s)
    ensures var s' := DoInstallBlock(L, s);
            && Represents(L, s'.disk, s'.hist.durable)
            && Progress(L, s'.pc, s'.disk, s'.lh, s'.hist.Logical(), s'.hist.durable)
  {
    var t := s.pc.tail;
    LogRegionClean(L, s, L.Slot(t));
    InstallKeepsImage(L, s.disk, s.hist.durable, t);
    InstallAdvances(L, s.disk, s.lh, s.hist.Logical(), s.hist.durable, t);
  }

  lemma InstallBlockCache(L: Layout, cache: Cache, disk: Image, lh: seq<Word>, t: nat, recovering: bool, logical: Image)
    requires |disk| == L.total && LogList(L, lh) && t < |lh| && CleanAgrees(cache, disk, {})
    requires PinnedDirty(cache, Pinned(Install(t), recovering, lh), {}, logical)
    ensures var cache' := Clean(Load(disk, cache, L.Slot(t), None), lh[t], disk[L.Slot(t)]);
            && PinnedDirty(cache', Pinned(Install(t + 1), recovering, lh), {}, logical)
            && CleanAgrees(cache', disk[lh[t] := disk[L.Slot(t)]], {})
  {
    InstallUnpins(L, lh, t, recovering);
    InstallKeepsCache(cache, disk, Pinned(Install(t), recovering, lh), Pinned(Install(t + 1), recovering, lh),
                      logical, L.Slot(t), lh[t]);
  }

  lemma InstallBlockMemory(L: Layout, s: State)
    requires |s.disk| == L.total && LogList(L, s.lh) && CanInstallBlock(L, s) && s.unlogged == {}
    requires CleanAgrees(s.cache, s.disk, {})
    requires PinnedDirty(s.cache, Pinned(s.pc, s.recovering, s.lh), {}, s.hist.Logical())
    requires View(s.disk, s.cache, L.Slot(s.pc.tail)) == s.disk[L.Slot(s.pc.tail)]
    ensures var s' := DoInstallBlock(L, s);
            && PinnedDirty(s'.cache, Pinned(s'.pc, s'.recovering, s'.lh), s'.unlogged, s'.hist.Logical())
            && CleanAgrees(s'.cache, s'.disk, s'.unlogged)
  {
    InstallBlockCache(L, s.cache, s.disk, s.lh, s.pc.tail, s.recovering, s.hist.Logical());
  }

  lemma KeepInstallBlock(L: Layout, s: State)
    requires Inv(L, s) && CanInstallBlock(L, s)
    ensures Inv(L, DoInstallBlock(L, s))
  {
    NothingUnlogged(L, s);
    InstallBlockDisk(L, s);
    LogRegionClean(L, s, L.Slot(s.pc.tail));
    InstallBlockMemory(L, s);
  }

  lemma KeepClearHead(L: Layout, s: State)
    requires Inv(L, s) && CanClearHead(L, s)
    ensures Inv(L, DoClearHead(L, s))
  {
    NothingUnlogged(L, s);
    LogRegionClean(L, s, L.start);
    EraseKeepsImage(L, s.disk, s.hist.durable);
    assert Pinned(s.pc, s.recovering, s.lh) == [];
    WriteThroughKeepsCache(s.cache, s.disk, [], s.hist.Logical(), L.start, EncodeHeader(s.disk[L.start], []));
  }

  lemma KeepReturn(L: Layout, s: State)
    requires Inv(L, s) && s.pc.Cleared?
    ensures Inv(L, DoReturn(s))
  {
  }

  lemma KeepCrash(L: Layout, s: State)
    requires Inv(L, s)
    ensures Inv(L, DoCrash(s))
  {
  }

  lemma KeepReadHead(L: Layout, s: State)
    requires Inv(L, s) && CanReadHead(L, s)
    ensures Inv(L, DoReadHead(L, s))
  {
    var s' := DoReadHead(L, s);
    LogRegionClean(L, s, L.start);
    assert s'.lh == HeaderList(s.disk[L.start]);
    assert Pinned(s'.pc, s'.recovering, s'.lh) == [] == Pinned(s.pc, s.recovering, s.lh);
    assert CleanAgrees(s'.cache, s'.disk, s'.unlogged);
  }
}
