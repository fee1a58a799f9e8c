/**
 A reader that holds a buffer while a full log commits: the commit finds no buffer for the
 first block of the log.
 */
module BufferShortage {
  import opened Common
  import opened Blocks
  import opened LogMachine
  import opened LogRuns
  import opened LogBudget
  import opened LogSpill
  import opened BufferCache

  const READER: Pid := 3

  const READ := 500

  /** The commit of n blocks, with the reader in place of the header block. */
  function WithReader(n: nat, t: nat): State
    requires t == 0 && n <= LOGSIZE
  {
    var s := Copying(n, t);
    s.(cache := (s.cache - {MKFS.start})[READ := Entry(Zero(), false, Some(READER))])
  }

  lemma ReaderSteps(n: nat, t: nat)
    requires t == 0 && n <= MKFS.Capacity()
    ensures Enabled(MKFS, Copying(n, t), Evict(MKFS.start))
    ensures var s := DoEvict(Copying(n, t), MKFS.start);
            Enabled(MKFS, s, BRead(READER, READ)) && DoBRead(s, READER, READ) == WithReader(n, t)
  {
    assert Buffered(t, MKFS.start);
  }

  /** The last operation has ended, and the header block makes room for the block that is read. */
  lemma ReaderRun(n: nat, t: nat) returns (r: Run)
    requires t == 0 && 0 < n <= MKFS.Capacity()
    ensures IsRun(MKFS, Blank(), r) && RunKeepsTo(MAXOPBLOCKS, r) && r.states[|r.steps|] == WithReader(n, t)
  {
    var tr := FillUp(MAXOPBLOCKS, n);
    Relax(MAXOPBLOCKS, tr, Filled(n));
    tr := ThreeEnd(MAXOPBLOCKS, tr, n, t);
    var s := DoEvict(Copying(n, t), MKFS.start);
    ReaderSteps(n, t);
    tr := Go(MAXOPBLOCKS, false, tr, Copying(n, t), Evict(MKFS.start), s);
    tr := Go(MAXOPBLOCKS, false, tr, s, BRead(READER, READ), WithReader(n, t));
    r := LeadsIsRun(MAXOPBLOCKS, false, tr, WithReader(n, t));
  }

  /** The buffers: one for each logged block, and one for the reader. */
  function Buffers(): (bufs: seq<Buf>)
    ensures |bufs| == NBUF
  {
    seq(NBUF, i requires 0 <= i < NBUF =>
      if i < NBUF - 1 then Buf(ROOTDEV, FIRST + i, true, true, 0, None, Mark())
      else Buf(ROOTDEV, READ, true, false, 1, Some(READER), Zero()))
  }

  function Places(): map<nat, nat> {
    map b: nat | b <= READ && Place(b) < NBUF :: Place(b)
  }

  function Place(b: nat): nat {
    if FIRST <= b < FIRST + NBUF - 1 then b - FIRST else if b == READ then NBUF - 1 else NBUF
  }

  lemma BuffersKeyed(bufs: seq<Buf>, where: map<nat, nat>)
    requires bufs == Buffers() && where == Places()
    ensures WellKeyed(bufs, where, MKFS.total) && WellUsed(bufs)
  {
  }

  lemma BuffersOf(n: nat, t: nat, bufs: seq<Buf>, where: map<nat, nat>)
    requires t == 0 && n == MKFS.Capacity() && WellKeyed(bufs, where, MKFS.total) && bufs == Buffers()
    requires where == Places()
    ensures Contents(bufs, where, MKFS.total) == WithReader(n, t).cache
  {
    var cache := WithReader(n, t).cache;
    forall b: nat ensures b in where <==> b in cache {
      assert Buffered(t, b) || !Buffered(t, b);
    }
    forall b | b in where ensures ToEntry(bufs[where[b]]) == cache[b] {
      assert b != READ ==> Buffered(t, b);
    }
  }

  /**
   Operations within MAXOPBLOCKS fill the log; in their commit, with one reader holding a
   buffer, bread of the first log block panics.
   */
  lemma ReaderStopsCommit() returns (r: Run, i: nat, bufs: seq<Buf>, where: map<nat, nat>)
    ensures IsRun(MKFS, Blank(), r) && RunKeepsTo(MAXOPBLOCKS, r) && i < |r.states|
    ensures r.states[i].pc == LogCopy(0) && |bufs| == NBUF
    ensures WellKeyed(bufs, where, MKFS.total) && WellUsed(bufs)
    ensures Contents(bufs, where, MKFS.total) == r.states[i].cache && !FindsBuffer(bufs, where, MKFS.Slot(0))
  {
    var n := MKFS.Capacity();
    r := ReaderRun(n, 0);
    i, bufs, where := |r.steps|, Buffers(), Places();
    BuffersKeyed(bufs, where);
    BuffersOf(n, 0, bufs, where);
  }
}
