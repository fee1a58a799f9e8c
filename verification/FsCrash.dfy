/**
 The file system over the log: the byte image of fs.c is the word image of the log, a
 transaction is a group of log_writes, and a crash is a crash of the log machine.
 */
module FsCrash {
  import opened Common
  import opened Bits
  import opened FsDisk
  import opened Dinodes
  import opened FileData
  import opened FileSystem
  import Blocks
  import LogMachine
  import LogRuns
  import Journal
  import Counting

  // ------------------------------------------------------------- bytes and words

  function WordBlock(blk: Block): (r: Blocks.Block)
    ensures forall w :: 0 <= w < NINDIRECT ==> r[w] == Word(blk, w)
  {
    seq(NINDIRECT, (w: nat) requires w < NINDIRECT => Word32Of(blk, w))
  }

  function Word32Of(blk: Block, w: nat): (r: Blocks.Word)
    requires w < NINDIRECT
    ensures r == Word(blk, w)
  {
    Word(blk, w)
  }

  /** Byte j of a word. */
  function ByteOf(w: nat, j: nat): Byte {
    if j == 0 then w % 256 else ByteOf(w / 256, j - 1)
  }

  function ByteBlock(b: Blocks.Block): (r: Block)
    ensures forall k :: 0 <= k < BSIZE ==> r[k] == ByteOf(b[k / 4], k % 4)
  {
    seq(BSIZE, (k: nat) requires k < BSIZE => ByteOf(b[k / 4], k % 4))
  }

  /** The four bytes of a word are the bytes it was made of. */
  lemma BytesOfWord(b0: Byte, b1: Byte, b2: Byte, b3: Byte)
    ensures var w := b0 + 256 * b1 + 65536 * b2 + 16777216 * b3;
            ByteOf(w, 0) == b0 && ByteOf(w, 1) == b1 && ByteOf(w, 2) == b2 && ByteOf(w, 3) == b3
  {
    var w: nat := b0 + 256 * b1 + 65536 * b2 + 16777216 * b3;
    var w1: nat, w2: nat := b1 + 256 * b2 + 65536 * b3, b2 + 256 * b3;
    assert w / 256 == w1 && w1 / 256 == w2 && w2 / 256 == b3;
    assert ByteOf(w, 1) == ByteOf(w1, 0);
    assert ByteOf(w, 2) == ByteOf(w1, 1) == ByteOf(w2, 0);
    assert ByteOf(w, 3) == ByteOf(w1, 2) == ByteOf(w2, 1) == ByteOf(b3, 0);
  }

  /** Words lose nothing. */
  lemma BytesBack(blk: Block)
    ensures ByteBlock(WordBlock(blk)) == blk
  {
    forall k | 0 <= k < BSIZE ensures ByteBlock(WordBlock(blk))[k] == blk[k] {
      var w := k / 4;
      BytesOfWord(blk[4 * w], blk[4 * w + 1], blk[4 * w + 2], blk[4 * w + 3]);
      assert k == 4 * w + k % 4;
    }
  }

  function WordImage(d: Image): (r: LogMachine.Image)
    ensures |r| == |d| && forall b :: 0 <= b < |d| ==> r[b] == WordBlock(d[b])
  {
    seq(|d|, (b: nat) requires b < |d| => WordBlock(d[b]))
  }

  function ByteImage(e: LogMachine.Image): (r: Image)
    ensures |r| == |e| && forall b :: 0 <= b < |e| ==> r[b] == ByteBlock(e[b])
  {
    seq(|e|, (b: nat) requires b < |e| => ByteBlock(e[b]))
  }

  // ----------------------------------------------------- transactions are groups

  /** A group of the log whose writes are those of a transaction. */
  ghost predicate GroupIs(group: seq<LogMachine.Write>, ws: seq<LogEntry>) {
    && |group| == |ws|
    && forall k :: 0 <= k < |ws| ==> group[k].block == ws[k].block && group[k].data == WordBlock(ws[k].data)
  }

  lemma {:induction false} GroupApplied(d: Image, ws: seq<LogEntry>, group: seq<LogMachine.Write>)
    requires GroupIs(group, ws)
    ensures LogMachine.Apply(WordImage(d), group) == WordImage(Play(d, ws))
  {
    if ws != [] {
      var n := |ws| - 1;
      GroupApplied(d, ws[..n], group[..n]);
      assert group[n].block == ws[n].block && group[n].data == WordBlock(ws[n].data);
    }
  }

  /** The groups of a run of the log are the first transactions, in order. */
  ghost predicate GroupsAre(groups: seq<seq<LogMachine.Write>>, logs: seq<Log>) {
    |groups| <= |logs| && forall t :: 0 <= t < |groups| ==> GroupIs(groups[t], logs[t].writes)
  }

  lemma {:induction false} GroupsApplied(sb: Super, states: seq<Image>, logs: seq<Log>,
                                         groups: seq<seq<LogMachine.Write>>)
    requires |states| == |logs| + 1 && GroupsAre(groups, logs)
    requires forall t {:trigger FitsAt(sb, states, logs, t)} :: 0 <= t < |logs| ==> FitsAt(sb, states, logs, t)
    ensures LogMachine.ApplyGroups(WordImage(states[0]), groups) == WordImage(states[|groups|])
    decreases |groups|
  {
    if groups != [] {
      var n := |groups| - 1;
      GroupsApplied(sb, states, logs, groups[..n]);
      assert FitsAt(sb, states, logs, n) && GroupIs(groups[n], logs[n].writes);
      GroupApplied(states[n], logs[n].writes, groups[n]);
    }
  }

  // ------------------------------------------------------------------- a crash

  /** The log lies before the inode blocks, on the device that holds the file system. */
  predicate LogBefore(L: Blocks.Layout, sb: Super) {
    L.total == sb.size && L.start + L.size <= sb.inodestart
  }

  /** Two images with the same inodes, bitmap and data. */
  ghost predicate SameFileSystem(sb: Super, d: Image, d': Image) {
    |d| == |d'| == sb.size && forall b :: sb.inodestart <= b < sb.size ==> d'[b] == d[b]
  }

  /**
   The power fails at any point of any run of the log whose groups are transactions of the file
   system: what recovery leaves is the file system after the transactions committed so far.
   */
  lemma CrashBetween(L: Blocks.Layout, sb: Super, r: LogRuns.Run, k: nat, states: seq<Image>, logs: seq<Log>)
    requires LogBefore(L, sb) && |states| == |logs| + 1 && |states[0]| == sb.size
    requires forall t {:trigger FitsAt(sb, states, logs, t)} :: 0 <= t < |logs| ==> FitsAt(sb, states, logs, t)
    requires LogRuns.IsRun(L, WordImage(states[0]), r) && k < |r.states| && LogRuns.Contained(L, r, k)
    requires GroupsAre(r.states[k].hist.groups, logs)
    ensures LogRuns.Readable(L, r.states[k].disk)
    ensures SameFileSystem(sb, states[|r.states[k].hist.groups|], ByteImage(LogRuns.Recover(L, r.states[k].disk)))
  {
    var groups := r.states[k].hist.groups;
    LogRuns.CrashAtomicity(L, WordImage(states[0]), r, k);
    GroupsApplied(sb, states, logs, groups);
    var e := LogRuns.Recover(L, r.states[k].disk);
    forall b | sb.inodestart <= b < sb.size ensures ByteImage(e)[b] == states[|groups|][b] {
      assert L.Home(b);
      BytesBack(states[|groups|][b]);
    }
  }

  /** Soundness and what has been written depend on the inodes, the bitmap and the data only. */
  lemma SameBetween(sb: Super, d0: Image, d: Image, d': Image, inums: set<nat>, i: nat, off: nat, data: seq<Byte>)
    requires Between(sb, d0, d, inums, i, off, data) && SameFileSystem(sb, d, d')
    ensures Between(sb, d0, d', inums, i, off, data)
  {
    var n: map<nat, Inode>, owner: Owner :|
      n.Keys == inums && OnDisk(sb, d, n) && Owned(sb, d, n, owner) && AllFull(d, n);
    SameSound(sb, d, d', n, owner);
    var n0: map<nat, Inode>, m: map<nat, Inode> :|
      n0.Keys == m.Keys == inums && OnDisk(sb, d0, n0) && OnDisk(sb, d, m) && Taken(d0, n0, d, m, i, off, data);
    OneTable(sb, d, n, m);
    SameTaken(sb, d0, n0, d, d', n, owner, i, off, data);
  }

  /** The disk holds one table of inodes. */
  lemma OneTable(sb: Super, d: Image, n: map<nat, Inode>, m: map<nat, Inode>)
    requires n.Keys == m.Keys && OnDisk(sb, d, n) && OnDisk(sb, d, m)
    ensures n == m
  {
    forall j | j in n ensures n[j] == m[j] {
      assert Current(sb, d, n, j) && Current(sb, d, m, j);
    }
  }

  lemma SameSound(sb: Super, d: Image, d': Image, n: map<nat, Inode>, owner: Owner)
    requires SameFileSystem(sb, d, d') && OnDisk(sb, d, n) && Owned(sb, d, n, owner) && AllFull(d, n)
    ensures OnDisk(sb, d', n) && Owned(sb, d', n, owner) && AllFull(d', n)
  {
    MetaExtends(sb, d, d', n, owner, 0);
    forall j | j in n ensures Current(sb, d', n, j) && NoHoles(d', n[j]) {
      assert Current(sb, d, n, j) && NoHoles(d, n[j]) && Kept(d, n[j], d', n[j]);
      KeptNoHoles(d, n[j], d', n[j]);
    }
  }

  lemma SameTaken(sb: Super, d0: Image, n0: map<nat, Inode>, d: Image, d': Image, n: map<nat, Inode>, owner: Owner,
                  i: nat, off: nat, data: seq<Byte>)
    requires SameFileSystem(sb, d, d') && Owned(sb, d, n, owner) && Taken(d0, n0, d, n, i, off, data)
    ensures Taken(d0, n0, d', n, i, off, data)
  {
    MetaExtends(sb, d, d', n, owner, i);
    forall j | j in n0 && j != i ensures n[j] == n0[j] && Kept(d0, n0[j], d', n[j]) {
      assert Kept(d0, n0[j], d, n[j]) && Kept(d, n[j], d', n[j]);
      KeptTrans(d0, n0[j], d, n[j], d', n[j]);
    }
    assert Kept(d, n[i], d', n[i]);
    StillWrote(d0, n0[i], d, n[i], d', n[i], off, data);
  }

  /** After recovery of this disk the file system is sound, by its own inodes, with exactly this data written. */
  ghost predicate Survives(L: Blocks.Layout, sb: Super, disk: LogMachine.Image, d0: Image, inums: set<nat>, i: nat,
                           off: nat, data: seq<Byte>) {
    && LogRuns.Readable(L, disk)
    && var d := ByteImage(LogRuns.Recover(L, disk));
       Sound(sb, d, inums) && DataTaken(sb, d0, d, inums, i, off, data)
  }

  /**
   A crash at any point of a filewrite, in whatever commit or recovery the log is, and after
   any number of crashes: recovery leaves a sound file system, by its own inodes, in which
   exactly one chunk of the data for each committed group has been written.
   */
  lemma CrashInFileWrite(L: Blocks.Layout, sb: Super, r: LogRuns.Run, k: nat, d0: Image, inums: set<nat>,
                         states: seq<Image>, logs: seq<Log>, i: nat, off: nat, src: seq<Byte>)
    requires LogBefore(L, sb) && Transactions(sb, d0, inums, states, logs, i, off, src)
    requires LogRuns.IsRun(L, WordImage(d0), r) && k < |r.states| && LogRuns.Contained(L, r, k)
    requires GroupsAre(r.states[k].hist.groups, logs)
    ensures Survives(L, sb, r.states[k].disk, d0, inums, i, off, Chunks(src, |r.states[k].hist.groups|))
  {
    var m := |r.states[k].hist.groups|;
    assert BetweenAt(sb, d0, inums, states, 0, i, off, src) && BetweenAt(sb, d0, inums, states, m, i, off, src);
    CrashBetween(L, sb, r, k, states, logs);
    SameBetween(sb, d0, states[m], ByteImage(LogRuns.Recover(L, r.states[k].disk)), inums, i, off, Chunks(src, m));
  }

  lemma EveryPointSurvives(L: Blocks.Layout, sb: Super, r: LogRuns.Run, d0: Image, inums: set<nat>, states: seq<Image>,
                           logs: seq<Log>, i: nat, off: nat, src: seq<Byte>)
    requires LogBefore(L, sb) && Transactions(sb, d0, inums, states, logs, i, off, src)
    requires LogRuns.IsRun(L, WordImage(d0), r) && LogRuns.Contained(L, r, |r.steps|)
    requires GroupsAre(r.states[|r.steps|].hist.groups, logs)
    ensures forall k :: 0 <= k < |r.states| ==>
      Survives(L, sb, r.states[k].disk, d0, inums, i, off, Chunks(src, |r.states[k].hist.groups|))
  {
    forall k | 0 <= k < |r.states|
      ensures Survives(L, sb, r.states[k].disk, d0, inums, i, off, Chunks(src, |r.states[k].hist.groups|))
    {
      LogRuns.CommittedGroupsStay(L, WordImage(d0), r, k, |r.steps|);
      CrashInFileWrite(L, sb, r, k, d0, inums, states, logs, i, off, src);
    }
  }

  // -------------------------------------------------------- filewrite over the log

  /** The blocks that a transaction writes, as the log takes them. */
  function Pairs(sb: Super, ws: seq<LogEntry>): (r: seq<(Blocks.Word, Blocks.Block)>)
    requires From(sb.inodestart, sb.size, ws)
    ensures |r| == |ws| && forall k :: 0 <= k < |ws| ==> r[k].0 == ws[k].block && r[k].1 == WordBlock(ws[k].data)
  {
    seq(|ws|, (k: nat) requires k < |ws| => (ws[k].block, WordBlock(ws[k].data)))
  }

  lemma {:induction false} PairBlocks(sb: Super, ws: seq<LogEntry>)
    requires From(sb.inodestart, sb.size, ws)
    ensures forall b :: b in Counting.Members(Journal.BlockList(Pairs(sb, ws))) <==> b in BlocksOf(ws)
  {
    if ws != [] {
      var n := |ws| - 1;
      PairBlocks(sb, ws[..n]);
      var all, front := Journal.BlockList(Pairs(sb, ws)), Journal.BlockList(Pairs(sb, ws[..n]));
      assert all == front + [ws[n].block];
    }
  }

  lemma FewBlocks(sb: Super, before: Image, after: Image, log: Log)
    requires Fits(sb, before, after, log)
    ensures log.writes != [] && |Counting.Members(Journal.BlockList(Pairs(sb, log.writes)))| <= MAXOPBLOCKS
  {
    PairBlocks(sb, log.writes);
    var a: set<int>, b: set<int> := Counting.Members(Journal.BlockList(Pairs(sb, log.writes))), log.blocks;
    assert a == b;
  }

  lemma NextGroup(sb: Super, groups: seq<seq<LogMachine.Write>>, logs: seq<Log>, op: nat)
    requires GroupsAre(groups, logs) && |groups| < |logs| && From(sb.inodestart, sb.size, logs[|groups|].writes)
    ensures GroupsAre(groups + [Journal.WritesOf(op, Pairs(sb, logs[|groups|].writes))], logs)
  {
  }

  /**
   filewrite over the log of log.c: each chunk is an operation of its own. Whatever the crash
   point, in the recovery at the start, in a transaction, in a commit or between two of them,
   recovery leaves a sound file system with the chunks of the committed groups written, and no
   more; at the end the disk holds the file system.
   */
  method LoggedFileWrite(fs: FS, L: Blocks.Layout, disk: LogMachine.Image, pid: nat, i: nat, off: nat, src: seq<Byte>)
    returns (r: Option<int>, log: Journal.Log, ghost run: LogRuns.Run)
    requires fs.Valid() && i in fs.inodes && off < UINT && |src| < UINT / 2
    requires LogBefore(L, fs.sb) && MAXOPBLOCKS < L.Capacity() && LogMachine.Represents(L, disk, WordImage(fs.d))
    modifies fs
    ensures r.None? ==> Full(fs.sb, fs.d)
    ensures LogRuns.IsRun(L, WordImage(old(fs.d)), run) && run.states[|run.steps|] == log.m
    ensures forall k :: 0 <= k < |run.states| ==>
      Survives(L, fs.sb, run.states[k].disk, old(fs.d), old(fs.inodes).Keys, i, off,
               Chunks(src, |run.states[k].hist.groups|))
    ensures r.Some? ==>
      && fs.Valid()
      && Taken(old(fs.d), old(fs.inodes), fs.d, fs.inodes, i, off, src[..Accepted(old(fs.inodes)[i].size, off, |src|)])
      && |log.disk| == L.total && forall b :: fs.sb.inodestart <= b < fs.sb.size ==> log.disk[b] == WordBlock(fs.d[b])
  {
    ghost var d0, inums := fs.d, fs.inodes.Keys;
    log := new Journal.Log(L, disk, WordImage(fs.d));
    log.RecoverFromLog(pid);
    var off', logs;
    ghost var states;
    r, off', logs, states := fs.FileWrite(i, off, src);
    CommitAll(fs.sb, log, pid, states, logs);
    run := Journal.ReachesIsRun(L, WordImage(d0), log.steps, log.m);
    EveryPointSurvives(L, fs.sb, run, d0, inums, states, logs, i, off, src);
    LogRuns.DurableIsCommittedGroups(L, WordImage(d0), run, |run.steps|);
    GroupsApplied(fs.sb, states, logs, log.m.hist.groups);
    Journal.IdleDisk(L, WordImage(d0), log.steps, log.m);
  }

  /** One operation of the log for every transaction. */
  method CommitAll(sb: Super, log: Journal.Log, pid: nat, ghost states: seq<Image>, logs: seq<Log>)
    requires log.Resting() && log.m.hist.groups == [] && LogBefore(log.L, sb) && MAXOPBLOCKS < log.L.Capacity()
    requires |states| == |logs| + 1
    requires forall t {:trigger FitsAt(sb, states, logs, t)} :: 0 <= t < |logs| ==> FitsAt(sb, states, logs, t)
    modifies log, log.block
    ensures log.Resting() && |log.m.hist.groups| == |logs| && GroupsAre(log.m.hist.groups, logs)
  {
    for t := 0 to |logs|
      invariant log.Resting() && |log.m.hist.groups| == t && GroupsAre(log.m.hist.groups, logs)
    {
      assert FitsAt(sb, states, logs, t);
      FewBlocks(sb, states[t], states[t + 1], logs[t]);
      NextGroup(sb, log.m.hist.groups, logs, log.m.hist.nextOp);
      log.Transact(pid, Pairs(sb, logs[t].writes));
    }
  }
}
