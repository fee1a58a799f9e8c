/** Files as byte sequences: what any run of writes, reads and truncations returns. */
module FileRuns {
  import opened Common
  import opened FsDisk
  import opened FileData
  import opened Truncate
  import opened FileSystem

  // ------------------------------------------------------------- the reference

  type Files = map<nat, seq<Byte>>

  datatype Op = Write(i: nat, off: nat, data: seq<Byte>) | Read(i: nat, off: nat, n: nat) | Discard(i: nat)
  datatype Out = Ret(n: int) | Bytes(bytes: seq<Byte>)

  function Overwrite(f: seq<Byte>, off: nat, data: seq<Byte>): (r: seq<Byte>)
    requires off <= |f|
    ensures |r| == Max(|f|, off + |data|)
    ensures forall k :: 0 <= k < |r| ==> r[k] == if off <= k < off + |data| then data[k - off] else f[k]
  {
    f[..off] + data + (if off + |data| < |f| then f[off + |data|..] else [])
  }

  /** What the system calls do to plain byte sequences. */
  function PlainStep(files: Files, op: Op): (Files, Out)
    requires op.i in files
  {
    var f := files[op.i];
    match op
    case Write(i, off, data) =>
      var k := Accepted(|f|, off, |data|);
      (if k == 0 then files else files[i := Overwrite(f, off, data[..k])], Ret(if k == |data| then |data| else -1))
    case Read(i, off, n) =>
      if off > |f| || off + n >= UINT then (files, Ret(-1))
      else (files, Bytes(f[off..if off + n > |f| then |f| else off + n]))
    case Discard(i) => (files[i := []], Ret(0))
  }

  ghost predicate Known(files: Files, ops: seq<Op>) {
    forall k :: 0 <= k < |ops| ==> ops[k].i in files
  }

  ghost function PlainRun(files: Files, ops: seq<Op>): (r: (Files, seq<Out>))
    requires Known(files, ops)
    ensures r.0.Keys == files.Keys && |r.1| == |ops|
  {
    if ops == [] then (files, [])
    else
      var (files1, outs) := PlainRun(files, ops[..|ops| - 1]);
      var (files2, out) := PlainStep(files1, ops[|ops| - 1]);
      (files2, outs + [out])
  }

  lemma PlainRunNext(files: Files, ops: seq<Op>, k: nat)
    requires Known(files, ops) && k < |ops|
    ensures Known(files, ops[..k]) && Known(files, ops[..k + 1])
    ensures ops[k].i in PlainRun(files, ops[..k]).0
    ensures var (files1, out) := PlainStep(PlainRun(files, ops[..k]).0, ops[k]);
            PlainRun(files, ops[..k + 1]) == (files1, PlainRun(files, ops[..k]).1 + [out])
  {
    assert ops[..k + 1][..k] == ops[..k] && ops[..k + 1][k] == ops[k];
  }

  // ------------------------------------------------------- what the reference means

  /** A read returns the bytes from off on, as many as asked for and there are. */
  lemma PlainReads(files: Files, i: nat, off: nat, n: nat)
    requires i in files
    ensures var f, (files', out) := files[i], PlainStep(files, Read(i, off, n));
            && files' == files
            && if off > |f| || off + n >= UINT then out == Ret(-1)
               else
                 && out.Bytes? && |out.bytes| == (if off + n > |f| then |f| - off else n)
                 && forall k :: 0 <= k < |out.bytes| ==> out.bytes[k] == f[off + k]
  {
  }

  /** A write that starts in the file or at its end, and stays within the largest file, is done. */
  lemma PlainWrites(files: Files, i: nat, off: nat, data: seq<Byte>)
    requires i in files && off <= |files[i]| && off + |data| <= 71680
    ensures var f, (files', out) := files[i], PlainStep(files, Write(i, off, data));
            && out == Ret(|data|) && files'.Keys == files.Keys
            && (forall j :: j in files && j != i ==> files'[j] == files[j])
            && |files'[i]| == (if off + |data| > |f| then off + |data| else |f|)
            && forall k :: 0 <= k < |files'[i]| ==>
                 files'[i][k] == if off <= k < off + |data| then data[k - off] else f[k]
  {
    assert data[..|data|] == data;
  }

  /** One that starts past the end is refused; one that does not fit is done for the whole chunks that do. */
  lemma PlainRefuses(files: Files, i: nat, off: nat, data: seq<Byte>)
    requires i in files && |files[i]| <= 71680 && (off > |files[i]| || off + |data| > 71680) && data != []
    ensures var f, (files', out) := files[i], PlainStep(files, Write(i, off, data));
            var k := if off > |f| then 0 else (71680 - off) / 1536 * 1536;
            && out == Ret(-1) && k < |data| && files'.Keys == files.Keys
            && (forall j :: j in files && j != i ==> files'[j] == files[j])
            && |files'[i]| == (if k > 0 && off + k > |f| then off + k else |f|)
            && forall x :: 0 <= x < |files'[i]| ==> files'[i][x] == if off <= x < off + k then data[x - off] else f[x]
  {
  }

  lemma PlainDiscards(files: Files, i: nat)
    requires i in files
    ensures var (files', out) := PlainStep(files, Discard(i));
            out == Ret(0) && files'.Keys == files.Keys && files'[i] == []
            && forall j :: j in files && j != i ==> files'[j] == files[j]
  {
  }

  /** The operation neither writes to byte pos of file i nor truncates that file. */
  ghost predicate Spares(op: Op, i: nat, pos: nat) {
    op.Read? || op.i != i || (op.Write? && !(op.off <= pos < op.off + |op.data|))
  }

  lemma SparedStep(files: Files, op: Op, i: nat, pos: nat)
    requires op.i in files && i in files && pos < |files[i]| && Spares(op, i, pos)
    ensures var f := PlainStep(files, op).0[i]; pos < |f| && f[pos] == files[i][pos]
  {
  }

  lemma {:induction false} LeftAlone(files: Files, ops: seq<Op>, i: nat, pos: nat)
    requires Known(files, ops) && i in files && pos < |files[i]|
    requires forall k :: 0 <= k < |ops| ==> Spares(ops[k], i, pos)
    ensures var f := PlainRun(files, ops).0[i]; pos < |f| && f[pos] == files[i][pos]
  {
    if ops != [] {
      var n := |ops| - 1;
      LeftAlone(files, ops[..n], i, pos);
      SparedStep(PlainRun(files, ops[..n]).0, ops[n], i, pos);
    }
  }

  lemma {:induction false} FirstThenRest(files: Files, op: Op, ops: seq<Op>)
    requires op.i in files && Known(files, ops)
    ensures Known(files, [op] + ops) && Known(PlainStep(files, op).0, ops)
    ensures PlainRun(files, [op] + ops).0 == PlainRun(PlainStep(files, op).0, ops).0
  {
    var all := [op] + ops;
    if ops == [] {
      assert all[..0] == [];
    } else {
      var n := |ops| - 1;
      FirstThenRest(files, op, ops[..n]);
      assert all[..n + 1] == [op] + ops[..n] && all[n + 1] == ops[n];
    }
  }

  /**
   Whatever is done in between to other files, or to other bytes of this one, a byte that was
   written is what a read of it returns.
   */
  lemma ReadsLastWritten(files: Files, i: nat, off: nat, data: seq<Byte>, ops: seq<Op>, pos: nat)
    requires i in files && off <= |files[i]| && off <= pos < off + |data| && off + |data| <= 71680 && Known(files, ops)
    requires forall k :: 0 <= k < |ops| ==> Spares(ops[k], i, pos)
    ensures var all := [Write(i, off, data)] + ops;
            && Known(files, all) && i in PlainRun(files, all).0
            && PlainStep(PlainRun(files, all).0, Read(i, pos, 1)).1 == Bytes([data[pos - off]])
  {
    var op := Write(i, off, data);
    PlainWrites(files, i, off, data);
    FirstThenRest(files, op, ops);
    var files1 := PlainStep(files, op).0;
    LeftAlone(files1, ops, i, pos);
    PlainReads(PlainRun(files1, ops).0, i, pos, 1);
  }

  // -------------------------------------------------------------- files on blocks

  ghost predicate ByteIs(d: Image, ip: Inode, f: seq<Byte>, pos: nat)
    requires pos < |f| <= MAXBYTES
  {
    ByteAt(d, ip, pos) == f[pos]
  }

  ghost predicate ShowsFile(d: Image, ip: Inode, f: seq<Byte>) {
    |f| == ip.size <= MAXBYTES && forall pos :: 0 <= pos < |f| ==> ByteIs(d, ip, f, pos)
  }

  ghost predicate Shows(d: Image, inodes: map<nat, Inode>, files: Files) {
    && files.Keys == inodes.Keys
    && forall i {:trigger ShowsFile(d, inodes[i], files[i])} :: i in inodes ==> ShowsFile(d, inodes[i], files[i])
  }

  lemma KeptShows(d: Image, ip: Inode, d': Image, ip': Inode, f: seq<Byte>)
    requires Kept(d, ip, d', ip') && ShowsFile(d, ip, f)
    ensures ShowsFile(d', ip', f)
  {
    forall pos | 0 <= pos < |f| ensures ByteIs(d', ip', f, pos) {
      assert ByteIs(d, ip, f, pos) && ByteKept(d, ip, d', ip', pos);
    }
  }

  lemma OthersShow(d: Image, n: map<nat, Inode>, d': Image, n': map<nat, Inode>, files: Files, i: nat, f: seq<Byte>)
    requires Shows(d, n, files) && i in n && OthersKept(d, n, d', n', i) && ShowsFile(d', n'[i], f)
    ensures Shows(d', n', files[i := f])
  {
    var files' := files[i := f];
    forall j | j in n' ensures ShowsFile(d', n'[j], files'[j]) {
      if j != i {
        assert ShowsFile(d, n[j], files[j]) && Kept(d, n[j], d', n'[j]);
        KeptShows(d, n[j], d', n'[j], files[j]);
      }
    }
  }

  lemma WroteShows(d: Image, ip: Inode, d': Image, ip': Inode, off: nat, data: seq<Byte>, f: seq<Byte>)
    requires Wrote(d, ip, d', ip', off, data) && ShowsFile(d, ip, f) && off <= |f| && off + |data| <= MAXBYTES
    requires ip'.size == Max(|f|, off + |data|)
    ensures ShowsFile(d', ip', Overwrite(f, off, data))
  {
    var f' := Overwrite(f, off, data);
    forall pos | 0 <= pos < |f'| ensures ByteIs(d', ip', f', pos) {
      assert WroteByte(d, ip, d', ip', off, data, pos);
      assert pos < |f| ==> ByteIs(d, ip, f, pos);
    }
  }

  lemma NothingWrote(d: Image, ip: Inode, d': Image, ip': Inode, off: nat, f: seq<Byte>)
    requires Wrote(d, ip, d', ip', off, []) && ShowsFile(d, ip, f) && ip'.size == ip.size
    ensures ShowsFile(d', ip', f)
  {
    forall pos | 0 <= pos < |f| ensures ByteIs(d', ip', f, pos) {
      assert WroteByte(d, ip, d', ip', off, [], pos) && ByteIs(d, ip, f, pos);
    }
  }

  lemma TakenShows(d: Image, n: map<nat, Inode>, d': Image, n': map<nat, Inode>, files: Files, i: nat, off: nat,
                   src: seq<Byte>)
    requires Shows(d, n, files) && i in n
    requires Taken(d, n, d', n', i, off, src[..Accepted(n[i].size, off, |src|)])
    ensures Shows(d', n', PlainStep(files, Write(i, off, src)).0)
  {
    var f, k := files[i], Accepted(n[i].size, off, |src|);
    assert ShowsFile(d, n[i], f);
    if k == 0 {
      assert src[..k] == [];
      NothingWrote(d, n[i], d', n'[i], off, f);
      OthersShow(d, n, d', n', files, i, f);
      assert files[i := f] == files;
    } else {
      WroteShows(d, n[i], d', n'[i], off, src[..k], f);
      OthersShow(d, n, d', n', files, i, Overwrite(f, off, src[..k]));
    }
  }

  lemma ReleasedShows(sb: Super, d: Image, n: map<nat, Inode>, owner: Owner, d': Image, n': map<nat, Inode>,
                      files: Files, i: nat)
    requires Shows(d, n, files) && i in n && Released(sb, d, n, owner, d', n', i) && n'[i].size == 0
    ensures Shows(d', n', files[i := []])
  {
    var files' := files[i := []];
    forall j | j in n' ensures ShowsFile(d', n'[j], files'[j]) {
      if j != i {
        assert ShowsFile(d, n[j], files[j]) && Kept(d, n[j], d', n'[j]);
        KeptShows(d, n[j], d', n'[j], files[j]);
      }
    }
  }

  lemma BytesOfFile(d: Image, ip: Inode, f: seq<Byte>, off: nat, n: nat)
    requires ShowsFile(d, ip, f) && off + n <= |f|
    ensures FileBytes(d, ip, off, n) == f[off..off + n]
  {
    forall k | 0 <= k < n ensures FileBytes(d, ip, off, n)[k] == f[off..off + n][k] {
      FileBytesAt(d, ip, off, n, k);
      assert ByteIs(d, ip, f, off + k);
    }
  }

  lemma FullCovered(d: Image, ip: Inode, off: nat, n: nat)
    requires NoHoles(d, ip) && (n == 0 || off + n <= ip.size)
    ensures Covered(d, ip, off, off + n)
  {
  }

  ghost predicate Callable(op: Op) {
    match op
    case Write(_, off, data) => off < UINT && |data| < UINT / 2
    case Read(_, off, n) => off < UINT && n < UINT
    case Discard(_) => true
  }

  /** One call; None is the panic "out of blocks". */
  method Call(fs: FS, op: Op, ghost files: Files) returns (out: Option<Out>)
    requires fs.Valid() && Shows(fs.d, fs.inodes, files) && op.i in fs.inodes && Callable(op)
    modifies fs
    ensures out.None? ==> Full(fs.sb, fs.d)
    ensures op.i in files
    ensures out.Some? ==>
      fs.Valid() && Shows(fs.d, fs.inodes, PlainStep(files, op).0) && out.value == PlainStep(files, op).1
  {
    ghost var d0, n0 := fs.d, fs.inodes;
    assert ShowsFile(fs.d, fs.inodes[op.i], files[op.i]) && NoHoles(fs.d, fs.inodes[op.i]);
    match op
    case Write(i, off, data) =>
      var r, off', logs, states := fs.FileWrite(i, off, data);
      if r.None? {
        return None;
      }
      TakenShows(d0, n0, fs.d, fs.inodes, files, i, off, data);
      return Some(Ret(r.value));
    case Read(i, off, n) =>
      FullCovered(d0, n0[i], off, ReadLength(n0[i].size, off, n));
      var r := fs.Readi(i, off, n);
      if r.Refused? {
        return Some(Ret(-1));
      }
      BytesOfFile(d0, n0[i], files[i], off, ReadLength(n0[i].size, off, n));
      return Some(Bytes(r.bytes));
    case Discard(i) =>
      ghost var owner0 := fs.owner;
      fs.Itrunc(i);
      ReleasedShows(fs.sb, d0, n0, owner0, fs.d, fs.inodes, files, i);
      return Some(Ret(0));
  }

  /**
   Any run of writes, reads and truncations of any files returns what byte sequences would,
   until the disk is full.
   */
  method Run(fs: FS, ops: seq<Op>, ghost files: Files) returns (outs: seq<Out>, full: bool)
    requires fs.Valid() && Shows(fs.d, fs.inodes, files) && Known(files, ops)
    requires forall k :: 0 <= k < |ops| ==> Callable(ops[k])
    modifies fs
    ensures |outs| <= |ops| && Known(files, ops[..|outs|]) && outs == PlainRun(files, ops[..|outs|]).1
    ensures !full ==> |outs| == |ops| && fs.Valid() && Shows(fs.d, fs.inodes, PlainRun(files, ops).0)
    ensures full ==> Full(fs.sb, fs.d)
  {
    outs := [];
    ghost var now := files;
    assert ops[..0] == [];
    while |outs| < |ops|
      invariant |outs| <= |ops| && Known(files, ops[..|outs|]) && (now, outs) == PlainRun(files, ops[..|outs|])
      invariant fs.Valid() && Shows(fs.d, fs.inodes, now)
    {
      var k := |outs|;
      PlainRunNext(files, ops, k);
      var out := Call(fs, ops[k], now);
      if out.None? {
        return outs, true;
      }
      now, outs := PlainStep(now, ops[k]).0, outs + [out.value];
    }
    assert ops[..|outs|] == ops;
    return outs, false;
  }
}
