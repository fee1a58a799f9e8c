/** Inodes in the bytes of the inode blocks (struct dinode of fs.h), and the block writes of a transaction. */
module Dinodes {
  import opened Common
  import opened Bits
  import opened FsDisk

  // ------------------------------------------------------------------ dinodes

  const DWORDS := 16     // words of a struct dinode

  /** Word k of a struct dinode: type and major, minor and nlink, size, addresses. */
  function InodeWord(ip: Inode, k: nat): nat
    requires k < DWORDS
  {
    if k == 0 then ip.kind else if k == 1 then ip.links else if k == 2 then ip.size else ip.addrs[k - 3]
  }

  /** Every field fits in its 32 bits. */
  predicate Storable(ip: Inode) {
    forall k :: 0 <= k < DWORDS ==> InodeWord(ip, k) < UINT
  }

  /** Slot s of an inode block with the first k words of an inode written to it. */
  function EncodeWords(blk: Block, s: nat, ip: Inode, k: nat): Block
    requires s < IPB && k <= DWORDS && Storable(ip)
  {
    if k == 0 then blk
    else SetWord(EncodeWords(blk, s, ip, k - 1), DWORDS * s + k - 1, InodeWord(ip, k - 1))
  }

  function EncodeInode(blk: Block, s: nat, ip: Inode): Block
    requires s < IPB && Storable(ip)
  {
    EncodeWords(blk, s, ip, DWORDS)
  }

  /** Word k of slot s. */
  function SlotWord(blk: Block, s: nat, k: nat): (w: Word32)
    requires s < IPB && k < DWORDS
  {
    Word(blk, DWORDS * s + k)
  }

  function SlotAddrs(blk: Block, s: nat): (addrs: seq<nat>)
    requires s < IPB
    ensures |addrs| == NDIRECT + 1 && forall k :: 0 <= k <= NDIRECT ==> addrs[k] == SlotWord(blk, s, k + 3)
  {
    seq(NDIRECT + 1, (k: nat) requires k <= NDIRECT => SlotWord(blk, s, k + 3) as nat)
  }

  function DecodeInode(blk: Block, s: nat): Inode
    requires s < IPB
  {
    Inode(SlotWord(blk, s, 0), SlotWord(blk, s, 1), SlotWord(blk, s, 2), SlotAddrs(blk, s))
  }

  /** An inode is its words. */
  lemma DecodedWords(blk: Block, s: nat, ip: Inode)
    requires s < IPB && forall k :: 0 <= k < DWORDS ==> SlotWord(blk, s, k) == InodeWord(ip, k)
    ensures DecodeInode(blk, s) == ip
  {
    forall k | 0 <= k <= NDIRECT ensures SlotAddrs(blk, s)[k] == ip.addrs[k] {
      assert SlotWord(blk, s, k + 3) == InodeWord(ip, k + 3);
    }
    assert SlotAddrs(blk, s) == ip.addrs;
  }

  /**
   A struct dinode in slot s of a block of eight: type and major at byte 0, minor and nlink at
   byte 4, the size at byte 8, the 13 addresses from byte 12 on.
   */
  ghost predicate Laid(blk: Block, s: nat, ip: Inode)
    requires s < 8
  {
    && LittleEndian(blk, 64 * s) == ip.kind && LittleEndian(blk, 64 * s + 4) == ip.links
    && LittleEndian(blk, 64 * s + 8) == ip.size
    && forall k :: 0 <= k <= 12 ==> LittleEndian(blk, 64 * s + 12 + 4 * k) == ip.addrs[k]
  }

  lemma DecodedLaid(blk: Block, s: nat)
    requires s < IPB
    ensures Laid(blk, s, DecodeInode(blk, s))
  {
    var ip := DecodeInode(blk, s);
    WordPlace(blk, DWORDS * s);
    WordPlace(blk, DWORDS * s + 1);
    WordPlace(blk, DWORDS * s + 2);
    forall k | 0 <= k <= 12 ensures LittleEndian(blk, 64 * s + 12 + 4 * k) == ip.addrs[k] {
      assert ip.addrs[k] == SlotWord(blk, s, k + 3);
      WordPlace(blk, DWORDS * s + k + 3);
    }
  }

  /** The assignments and the memmove of `iupdate`. */
  method PackInode(blk: Block, s: nat, ip: Inode) returns (r: Block)
    requires s < IPB && Storable(ip)
    ensures r == EncodeInode(blk, s, ip) && Laid(r, s, ip)
    ensures forall o :: 0 <= o < BSIZE && !(64 * s <= o < 64 * s + 64) ==> r[o] == blk[o]
  {
    r := blk;
    for k := 0 to DWORDS
      invariant r == EncodeWords(blk, s, ip, k)
      invariant forall o :: 0 <= o < BSIZE && !(64 * s <= o < 64 * s + 64) ==> r[o] == blk[o]
    {
      r := SetWord(r, DWORDS * s + k, InodeWord(ip, k));
    }
    InodeRoundTrip(blk, s, ip);
    DecodedLaid(r, s);
  }

  /** The assignments and the memmove of `ilock`. */
  method UnpackInode(blk: Block, s: nat) returns (ip: Inode)
    requires s < IPB
    ensures ip == DecodeInode(blk, s) && Laid(blk, s, ip)
  {
    DecodedLaid(blk, s);
    var addrs: seq<nat> := [];
    while |addrs| < NDIRECT + 1
      invariant |addrs| <= NDIRECT + 1 && forall k :: 0 <= k < |addrs| ==> addrs[k] == SlotWord(blk, s, k + 3)
    {
      addrs := addrs + [SlotWord(blk, s, |addrs| + 3)];
    }
    assert addrs == SlotAddrs(blk, s);
    ip := Inode(SlotWord(blk, s, 0), SlotWord(blk, s, 1), SlotWord(blk, s, 2), addrs);
  }

  lemma {:induction false} EncodedWord(blk: Block, s: nat, ip: Inode, k: nat, v: nat)
    requires s < IPB && k <= DWORDS && Storable(ip) && v < NINDIRECT
    ensures Word(EncodeWords(blk, s, ip, k), v) ==
            if DWORDS * s <= v < DWORDS * s + k then InodeWord(ip, v - DWORDS * s) else Word(blk, v)
  {
    if k > 0 {
      EncodedWord(blk, s, ip, k - 1, v);
      WordOfSetWord(EncodeWords(blk, s, ip, k - 1), DWORDS * s + k - 1, InodeWord(ip, k - 1), v);
    }
  }

  /** What is written is what is read. */
  lemma InodeRoundTrip(blk: Block, s: nat, ip: Inode)
    requires s < IPB && Storable(ip)
    ensures DecodeInode(EncodeInode(blk, s, ip), s) == ip
  {
    var blk' := EncodeInode(blk, s, ip);
    forall k | 0 <= k < DWORDS ensures SlotWord(blk', s, k) == InodeWord(ip, k) {
      EncodedWord(blk, s, ip, DWORDS, DWORDS * s + k);
    }
    DecodedWords(blk', s, ip);
  }

  /** The other seven inodes of the block are not touched. */
  lemma InodeFrame(blk: Block, s: nat, ip: Inode, t: nat)
    requires s < IPB && t < IPB && s != t && Storable(ip)
    ensures DecodeInode(EncodeInode(blk, s, ip), t) == DecodeInode(blk, t)
  {
    var blk', old' := EncodeInode(blk, s, ip), DecodeInode(blk, t);
    forall k | 0 <= k < DWORDS ensures SlotWord(blk', t, k) == InodeWord(old', k) {
      EncodedWord(blk, s, ip, DWORDS, DWORDS * t + k);
      assert k >= 3 ==> old'.addrs[k - 3] == SlotWord(blk, t, k - 3 + 3);
    }
    DecodedWords(blk', t, old');
  }

  /** The inode that the disk holds under a number. */
  function DinodeAt(sb: Super, d: Image, i: nat): Inode
    requires |d| == sb.size && i < sb.ninodes
  {
    DecodeInode(d[InodeBlock(sb, i)], i % IPB)
  }

  /** The image after `iupdate` of inode i. */
  function Stored(sb: Super, d: Image, i: nat, ip: Inode): (d': Image)
    requires |d| == sb.size && i < sb.ninodes && Storable(ip)
    ensures |d'| == |d|
  {
    d[InodeBlock(sb, i) := EncodeInode(d[InodeBlock(sb, i)], i % IPB, ip)]
  }

  lemma StoredAt(sb: Super, d: Image, i: nat, ip: Inode, j: nat)
    requires |d| == sb.size && i < sb.ninodes && Storable(ip) && j < sb.ninodes
    ensures DinodeAt(sb, Stored(sb, d, i, ip), j) == if j == i then ip else DinodeAt(sb, d, j)
  {
    if j == i {
      InodeRoundTrip(d[InodeBlock(sb, i)], i % IPB, ip);
    } else if InodeBlock(sb, j) == InodeBlock(sb, i) {
      assert i == i / IPB * IPB + i % IPB && j == j / IPB * IPB + j % IPB;
      InodeFrame(d[InodeBlock(sb, i)], i % IPB, ip, j % IPB);
    }
  }

  lemma StoredAll(sb: Super, d: Image, i: nat, ip: Inode)
    requires |d| == sb.size && i < sb.ninodes && Storable(ip)
    ensures forall j :: 0 <= j < sb.ninodes ==>
      DinodeAt(sb, Stored(sb, d, i, ip), j) == if j == i then ip else DinodeAt(sb, d, j)
  {
    forall j | 0 <= j < sb.ninodes
      ensures DinodeAt(sb, Stored(sb, d, i, ip), j) == if j == i then ip else DinodeAt(sb, d, j)
    {
      StoredAt(sb, d, i, ip, j);
    }
  }

  /** Addresses in use fit in a dinode. */
  lemma OwnedStorable(sb: Super, d: Image, n: map<nat, Inode>, owner: Owner, i: nat, size: nat)
    requires Owned(sb, d, n, owner) && i in n && size < UINT
    ensures Storable(n[i].(size := size))
  {
    forall k | 0 <= k < DWORDS ensures InodeWord(n[i].(size := size), k) < UINT {
      if k >= 3 {
        SlotInData(sb, d, n, owner, i, k - 3);
      }
    }
  }

  // ------------------------------------------------ an inode block among the others

  /** Two images with the same bitmap and the same data. */
  ghost predicate SameData(sb: Super, d: Image, d': Image) {
    |d| == |d'| == sb.size && forall b :: sb.bmapstart <= b < sb.size ==> d'[b] == d[b]
  }

  /** A change to blocks before the bitmap is none to the bitmap, the indirect blocks or the data. */
  lemma MetaExtends(sb: Super, d: Image, d': Image, n: map<nat, Inode>, owner: Owner, i: nat)
    requires Owned(sb, d, n, owner) && SameData(sb, d, d')
    ensures Owned(sb, d', n, owner) && Extends(d, n, d', n, i)
  {
    forall j | j in n ensures AddrsOwned(d', n[j], j, owner) && Kept(d, n[j], d', n[j]) {
      SlotsElsewhere(sb, d, d', n, owner, j);
    }
    forall a | a in owner ensures Held(sb, d', n, owner, a) {
      assert Held(sb, d, n, owner, a);
      var (j, l) := owner[a];
      SlotInData(sb, d, n, owner, j, NDIRECT);
      SlotFrame(d, d', n[j], l);
    }
    forall a | 0 <= a < sb.size ensures Marked(sb, d', owner, a) {
      assert Marked(sb, d, owner, a);
      UsedFrame(sb, d, d', a);
    }
  }

  lemma SlotsElsewhere(sb: Super, d: Image, d': Image, n: map<nat, Inode>, owner: Owner, j: nat)
    requires Owned(sb, d, n, owner) && SameData(sb, d, d') && j in n
    ensures AddrsOwned(d', n[j], j, owner) && Kept(d, n[j], d', n[j])
  {
    var ip := n[j];
    SlotInData(sb, d, n, owner, j, NDIRECT);
    forall l | 0 <= l < NSLOT ensures SlotOwned(d', ip, j, l, owner) && SlotKept(d, ip, d', ip, l) {
      assert SlotOwned(d, ip, j, l, owner);
      SlotFrame(d, d', ip, l);
    }
    forall pos | 0 <= pos < MAXFILE * BSIZE ensures ByteKept(d, ip, d', ip, pos) {
      SlotInData(sb, d, n, owner, j, DataSlot(pos / BSIZE));
      SlotFrame(d, d', ip, DataSlot(pos / BSIZE));
    }
  }

  // ------------------------------------------------ every change goes to the log

  /** A call of log_write: the block and what it held. */
  datatype LogEntry = LogEntry(block: nat, data: Block)

  /** The calls of log_write of a transaction, and the distinct blocks among them. */
  datatype Log = Log(blocks: set<nat>, writes: seq<LogEntry>)

  const NOLOG := Log({}, [])

  function Appended(log: Log, b: nat, blk: Block): Log {
    Log(log.blocks + {b}, log.writes + [LogEntry(b, blk)])
  }

  /** The image after a list of block writes. */
  function Play(d: Image, ws: seq<LogEntry>): (r: Image)
    ensures |r| == |d|
  {
    if ws == [] then d
    else
      var w, r := ws[|ws| - 1], Play(d, ws[..|ws| - 1]);
      if w.block < |r| then r[w.block := w.data] else r
  }

  ghost function BlocksOf(ws: seq<LogEntry>): set<nat> {
    if ws == [] then {} else BlocksOf(ws[..|ws| - 1]) + {ws[|ws| - 1].block}
  }

  ghost predicate From(lo: nat, hi: nat, ws: seq<LogEntry>) {
    forall k :: 0 <= k < |ws| ==> lo <= ws[k].block < hi
  }

  /** Image d0 has become d through the writes ws to blocks from lo on, which are on the log. */
  ghost predicate TracedBy(lo: nat, d0: Image, log0: Log, d: Image, log: Log, ws: seq<LogEntry>) {
    && log.writes == log0.writes + ws && log.blocks == log0.blocks + BlocksOf(ws)
    && d == Play(d0, ws) && From(lo, |d0|, ws)
  }

  ghost predicate Traced(lo: nat, d0: Image, log0: Log, d: Image, log: Log) {
    |d| == |d0| && log0.blocks <= log.blocks && exists ws :: TracedBy(lo, d0, log0, d, log, ws)
  }

  lemma TracedNone(lo: nat, d: Image, log: Log)
    ensures Traced(lo, d, log, d, log)
  {
    assert TracedBy(lo, d, log, d, log, []);
  }

  lemma NextWrite(d: Image, ws: seq<LogEntry>, w: LogEntry)
    requires w.block < |d|
    ensures Play(d, ws + [w]) == Play(d, ws)[w.block := w.data] && BlocksOf(ws + [w]) == BlocksOf(ws) + {w.block}
  {
    assert (ws + [w])[..|ws|] == ws;
  }

  lemma TracedOne(lo: nat, d0: Image, log0: Log, d: Image, log: Log, b: nat, blk: Block)
    requires Traced(lo, d0, log0, d, log) && lo <= b < |d|
    ensures Traced(lo, d0, log0, d[b := blk], Appended(log, b, blk))
  {
    var ws :| TracedBy(lo, d0, log0, d, log, ws);
    TracedByNext(lo, d0, log0, d, log, ws, b, blk);
  }

  lemma TracedByNext(lo: nat, d0: Image, log0: Log, d: Image, log: Log, ws: seq<LogEntry>, b: nat, blk: Block)
    requires TracedBy(lo, d0, log0, d, log, ws) && |d| == |d0| && lo <= b < |d|
    ensures TracedBy(lo, d0, log0, d[b := blk], Appended(log, b, blk), ws + [LogEntry(b, blk)])
  {
    NextWrite(d0, ws, LogEntry(b, blk));
  }

  lemma TracedTwice(lo: nat, d: Image, log: Log, b: nat, x: Block, c: nat, y: Block)
    requires lo <= b < |d| && lo <= c < |d|
    ensures Traced(lo, d, log, d[b := x][c := y], Appended(Appended(log, b, x), c, y))
  {
    TracedNone(lo, d, log);
    TracedOne(lo, d, log, d, log, b, x);
    TracedOne(lo, d, log, d[b := x], Appended(log, b, x), c, y);
  }

  lemma {:induction false} PlayCat(d: Image, ws: seq<LogEntry>, vs: seq<LogEntry>)
    ensures Play(d, ws + vs) == Play(Play(d, ws), vs) && BlocksOf(ws + vs) == BlocksOf(ws) + BlocksOf(vs)
  {
    if vs == [] {
      assert ws + vs == ws;
    } else {
      var n := |vs| - 1;
      PlayCat(d, ws, vs[..n]);
      assert (ws + vs)[..|ws + vs| - 1] == ws + vs[..n];
    }
  }

  lemma TracedTrans(lo: nat, d0: Image, log0: Log, d1: Image, log1: Log, d2: Image, log2: Log)
    requires Traced(lo, d0, log0, d1, log1) && Traced(lo, d1, log1, d2, log2)
    ensures Traced(lo, d0, log0, d2, log2)
  {
    var ws :| TracedBy(lo, d0, log0, d1, log1, ws);
    var vs :| TracedBy(lo, d1, log1, d2, log2, vs);
    PlayCat(d0, ws, vs);
    assert TracedBy(lo, d0, log0, d2, log2, ws + vs);
  }

  lemma TracedFrom(lo: nat, lo': nat, d0: Image, log0: Log, d: Image, log: Log)
    requires Traced(lo, d0, log0, d, log) && lo' <= lo
    ensures Traced(lo', d0, log0, d, log)
  {
    var ws :| TracedBy(lo, d0, log0, d, log, ws);
    assert TracedBy(lo', d0, log0, d, log, ws);
  }

  /** From an empty log, the log has it all. */
  lemma TracedAll(lo: nat, d0: Image, d: Image, log: Log)
    requires Traced(lo, d0, NOLOG, d, log)
    ensures d == Play(d0, log.writes) && log.blocks == BlocksOf(log.writes) && From(lo, |d0|, log.writes)
  {
    var ws :| TracedBy(lo, d0, NOLOG, d, log, ws);
    assert log.writes == ws;
  }

  /** Blocks below lo are what they were. */
  lemma TracedBelow(lo: nat, d0: Image, log0: Log, d: Image, log: Log, b: nat)
    requires Traced(lo, d0, log0, d, log) && b < |d0| && b < lo
    ensures d[b] == d0[b]
  {
    var ws :| TracedBy(lo, d0, log0, d, log, ws);
    PlayBelow(lo, d0, ws, b);
  }

  lemma {:induction false} PlayBelow(lo: nat, d: Image, ws: seq<LogEntry>, b: nat)
    requires From(lo, |d|, ws) && b < |d| && b < lo
    ensures Play(d, ws)[b] == d[b]
  {
    if ws != [] {
      PlayBelow(lo, d, ws[..|ws| - 1], b);
    }
  }

  /** While only bitmap and data blocks change, the disk holds the same inodes. */
  lemma TracedInodes(sb: Super, d0: Image, log0: Log, d: Image, log: Log, j: nat)
    requires Traced(sb.bmapstart, d0, log0, d, log) && |d0| == sb.size && j < sb.ninodes
    ensures DinodeAt(sb, d, j) == DinodeAt(sb, d0, j)
  {
    TracedBelow(sb.bmapstart, d0, log0, d, log, InodeBlock(sb, j));
  }
}
