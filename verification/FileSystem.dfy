/** fs.c and filewrite of file.c as they are written, over the disk blocks as bread shows them. */
module FileSystem {
  import opened Common
  import opened Bits
  import opened FsDisk
  import opened Dinodes
  import opened FileData
  import opened Truncate

  const MAXBYTES := MAXFILE * BSIZE

  datatype ReadResult = Refused | NoBlocks | Data(bytes: seq<Byte>)

  class FS {
    const sb: Super
    var d: Image                     // block contents as bread shows them
    var inodes: map<nat, Inode>      // inodes in memory
    ghost var owner: Owner
    var log: Log                     // calls of log_write in this transaction

    ghost predicate Consistent()
      reads this
    {
      Owned(sb, d, inodes, owner)
    }

    /** A block changes and is passed to log_write. */
    method LogWrite(b: nat, blk: Block)
      requires b < |d|
      modifies this`d, this`log
      ensures d == old(d)[b := blk] && log == Appended(old(log), b, blk)
    {
      d := d[b := blk];
      log := Appended(log, b, blk);
    }

    /** The bit of a free block is set, and the block is zeroed. */
    method Take(bp: nat, bi: nat, a: nat)
      requires |d| == sb.size && a < sb.size && bp == BitmapBlock(sb, a) && bi == a % BPB
      modifies this`d, this`log
      ensures d == Allocated(sb, old(d), a) && log.blocks == old(log).blocks + {bp, a}
      ensures sb.bmapstart <= a ==> Traced(sb.bmapstart, old(d), old(log), d, log)
    {
      BitmapBlockInRange(sb, a);
      if sb.bmapstart <= a {
        TracedTwice(sb.bmapstart, d, log, bp, FlipBlock(d[bp], bi), a, Zeroes());
      }
      LogWrite(bp, FlipBlock(d[bp], bi));
      LogWrite(a, Zeroes());
    }

    /** `balloc`: the first free block, marked and zeroed; None is the panic "out of blocks". */
    method Balloc() returns (r: Option<nat>)
      requires |d| == sb.size
      modifies this`d, this`log
      ensures r.None? <==> Full(sb, old(d))
      ensures r.None? ==> d == old(d) && log == old(log)
      ensures r.Some? ==>
        && r.value < sb.size && !Used(sb, old(d), r.value)
        && (forall a :: 0 <= a < r.value ==> Used(sb, old(d), a))
        && d == Allocated(sb, old(d), r.value)
        && log.blocks == old(log).blocks + {BitmapBlock(sb, r.value), r.value}
      ensures r.None? || sb.bmapstart <= r.value ==> Traced(sb.bmapstart, old(d), old(log), d, log)
      ensures r.Some? ==> forall k :: 0 <= k < BSIZE ==> d[r.value][k] == 0
      ensures r.Some? && sb.datastart <= r.value ==>
        && (forall a :: 0 <= a < sb.size ==> (Used(sb, d, a) <==> a == r.value || Used(sb, old(d), a)))
        && forall b :: 0 <= b < sb.size && b != r.value && b != sb.bmapstart + r.value / 4096 ==> d[b] == old(d)[b]
    {
      TracedNone(sb.bmapstart, d, log);
      r := FindFree();
      if r.Some? {
        BitmapBlockInRange(sb, r.value);
        BitsAfterAlloc(sb, d, r.value);
        Take(BitmapBlock(sb, r.value), r.value % BPB, r.value);
      }
    }

    /** The search of `balloc`, bitmap block by bitmap block and bit by bit: the first free block. */
    method FindFree() returns (r: Option<nat>)
      requires |d| == sb.size
      ensures r.None? <==> Full(sb, d)
      ensures r.Some? ==> r.value < sb.size && !Used(sb, d, r.value) && forall a :: 0 <= a < r.value ==> Used(sb, d, a)
    {
      var b := 0;
      ghost var k := 0;
      while b < sb.size
        invariant b == k * BPB
        invariant forall a :: 0 <= a < b && a < sb.size ==> Used(sb, d, a)
      {
        r := FindFreeIn(b, k);
        if r.Some? {
          return;
        }
        b, k := b + BPB, k + 1;
      }
      return None;
    }

    /** The inner loop of that search. */
    method FindFreeIn(b: nat, ghost k: nat) returns (r: Option<nat>)
      requires |d| == sb.size && b == k * BPB < sb.size && forall a :: 0 <= a < b ==> Used(sb, d, a)
      ensures r.None? ==> forall a :: 0 <= a < b + BPB && a < sb.size ==> Used(sb, d, a)
      ensures r.Some? ==> r.value < sb.size && !Used(sb, d, r.value) && forall a :: 0 <= a < r.value ==> Used(sb, d, a)
    {
      var bi := 0;
      while bi < BPB && b + bi < sb.size
        invariant 0 <= bi <= BPB && b + bi <= sb.size
        invariant forall a :: 0 <= a < b + bi ==> Used(sb, d, a)
      {
        InBitmapBlock(sb, d, k, bi);
        if !BlockBit(d[sb.bmapstart + b / BPB], bi) {
          return Some(b + bi);
        }
        bi := bi + 1;
      }
      return None;
    }

    /** `bfree`; false is the panic "freeing free block". */
    method Bfree(a: nat) returns (ok: bool)
      requires |d| == sb.size && a < sb.size
      modifies this`d, this`log
      ensures ok == Used(sb, old(d), a)
      ensures ok ==> d == FlipUsed(sb, old(d), a) && log.blocks == old(log).blocks + {BitmapBlock(sb, a)}
      ensures !ok ==> d == old(d) && log == old(log)
      ensures Traced(sb.bmapstart, old(d), old(log), d, log)
      ensures ok ==>
        && (forall b :: 0 <= b < sb.size ==> (Used(sb, d, b) <==> b != a && Used(sb, old(d), b)))
        && forall b :: 0 <= b < sb.size && b != sb.bmapstart + a / 4096 ==> d[b] == old(d)[b]
    {
      var bp, bi := BitmapBlock(sb, a), a % BPB;
      BitmapBlockInRange(sb, a);
      BitsAfterFree(sb, d, a);
      TracedNone(sb.bmapstart, d, log);
      if !BlockBit(d[bp], bi) {
        return false;
      }
      TracedOne(sb.bmapstart, d, log, d, log, bp, FlipBlock(d[bp], bi));
      LogWrite(bp, FlipBlock(d[bp], bi));
      return true;
    }

    /** The direct slot, or the slot of the indirect block, filled if it is empty. */
    method FillDirect(i: nat, k: nat) returns (r: Option<nat>, ghost bm: set<nat>)
      requires Consistent() && i in inodes && k <= NDIRECT
      modifies this`d, this`inodes, this`owner, this`log
      ensures Consistent() && Extends(old(d), old(inodes), d, inodes, i)
      ensures r.None? ==> Full(sb, d)
      ensures r.Some? ==> r.value == inodes[i].addrs[k] != 0 && log.blocks <= old(log).blocks + bm + {r.value}
      ensures r.Some? ==> owner == old(owner)[r.value := (i, k)]
      ensures r.None? ==> log == old(log)
      ensures |bm| <= 1
      ensures OnlySlot(old(inodes)[i], inodes[i], k)
      ensures Traced(sb.bmapstart, old(d), old(log), d, log)
      ensures old(inodes)[i].addrs[k] != 0 ==>
        bm == {} && r.Some? && d == old(d) && inodes == old(inodes) && owner == old(owner) && log == old(log)
    {
      bm := {};
      ExtendsRefl(sb, d, inodes, owner, i);
      TracedNone(sb.bmapstart, d, log);
      assert AddrsOwned(d, inodes[i], i, owner);
      var a := inodes[i].addrs[k];
      if a == 0 {
        ghost var d0, inodes0 := d, inodes;
        r := Balloc();
        if r.Some? {
          AllocDirect(sb, d0, inodes, owner, r.value, i, k);
          AllocDirectExtends(sb, d0, inodes, owner, r.value, i, k);
          FreeIsUnowned(sb, d0, inodes, owner, r.value);
          inodes := SetDirect(inodes, i, k, r.value);
          owner := owner[r.value := (i, k)];
          bm := {BitmapBlock(sb, r.value)};
        }
        return r, bm;
      }
      SlotInData(sb, d, inodes, owner, i, k);
      return Some(a), bm;
    }

    /** Entry w of the indirect block of inode i, filled if it is empty. */
    method FillEntry(i: nat, w: nat) returns (r: Option<nat>, ghost bm: set<nat>)
      requires Consistent() && i in inodes && w < NINDIRECT
      requires 0 < inodes[i].addrs[NDIRECT] < |d|
      modifies this`d, this`owner, this`log
      ensures Consistent() && Extends(old(d), inodes, d, inodes, i)
      ensures r.None? ==> Full(sb, d)
      ensures r.Some? ==>
        && r.value == SlotAddr(d, inodes[i], NDIRECT + 1 + w) != 0
        && log.blocks <= old(log).blocks + bm + {r.value, inodes[i].addrs[NDIRECT]}
        && owner == old(owner)[r.value := (i, NDIRECT + 1 + w)]
      ensures r.None? ==> log == old(log)
      ensures |bm| <= 1
      ensures Traced(sb.bmapstart, old(d), old(log), d, log)
      ensures SlotAddr(old(d), inodes[i], NDIRECT + 1 + w) != 0 ==>
        bm == {} && r.Some? && d == old(d) && owner == old(owner) && log == old(log)
    {
      bm := {};
      ExtendsRefl(sb, d, inodes, owner, i);
      TracedNone(sb.bmapstart, d, log);
      assert AddrsOwned(d, inodes[i], i, owner);
      var ind := inodes[i].addrs[NDIRECT];
      var a := Word(d[ind], w);
      if a == 0 {
        r, bm := NewEntry(i, w);
        return;
      }
      SlotInData(sb, d, inodes, owner, i, NDIRECT + 1 + w);
      return Some(a), bm;
    }

    /** An empty entry of the indirect block is filled. */
    method NewEntry(i: nat, w: nat) returns (r: Option<nat>, ghost bm: set<nat>)
      requires Consistent() && i in inodes && w < NINDIRECT && AddrsOwned(d, inodes[i], i, owner)
      requires inodes[i].addrs[NDIRECT] != 0 && SlotAddr(d, inodes[i], NDIRECT + 1 + w) == 0
      modifies this`d, this`owner, this`log
      ensures r.None? ==> Full(sb, d) && d == old(d) && owner == old(owner) && log == old(log)
      ensures r.Some? ==>
        && Consistent() && Extends(old(d), inodes, d, inodes, i) && Traced(sb.bmapstart, old(d), old(log), d, log)
        && r.value == SlotAddr(d, inodes[i], NDIRECT + 1 + w) != 0
        && owner == old(owner)[r.value := (i, NDIRECT + 1 + w)]
        && log.blocks <= old(log).blocks + bm + {r.value, inodes[i].addrs[NDIRECT]}
      ensures |bm| <= 1
    {
      bm := {};
      ghost var d0 := d;
      r := Balloc();
      if r.Some? {
        FreeIsUnowned(sb, d0, inodes, owner, r.value);
        SlotInData(sb, d0, inodes, owner, i, NDIRECT);
        LinkEntry(i, w, r.value, d0, old(log));
        bm := {BitmapBlock(sb, r.value)};
      }
    }

    /** A new block is entered in the indirect block. */
    method LinkEntry(i: nat, w: nat, a: nat, ghost d0: Image, ghost log0: Log)
      requires Owned(sb, d0, inodes, owner) && 0 < a < sb.size && !Used(sb, d0, a) && d == Allocated(sb, d0, a)
      requires i in inodes && AddrsOwned(d0, inodes[i], i, owner) && sb.datastart <= inodes[i].addrs[NDIRECT] < sb.size
      requires w < NINDIRECT && SlotAddr(d0, inodes[i], NDIRECT + 1 + w) == 0 && Traced(sb.bmapstart, d0, log0, d, log)
      modifies this`d, this`owner, this`log
      ensures Consistent() && Extends(d0, inodes, d, inodes, i) && Traced(sb.bmapstart, d0, log0, d, log)
      ensures SlotAddr(d, inodes[i], NDIRECT + 1 + w) == a && owner == old(owner)[a := (i, NDIRECT + 1 + w)]
      ensures log.blocks == old(log).blocks + {inodes[i].addrs[NDIRECT]}
    {
      var ind := inodes[i].addrs[NDIRECT];
      var blk := SetWord(d[ind], w, a);
      EntryFilled(sb, d0, inodes, owner, a, i, w, d, blk);
      TracedOne(sb.bmapstart, d0, log0, d, log, ind, blk);
      LogWrite(ind, blk);
      owner := owner[a := (i, NDIRECT + 1 + w)];
    }

    /** The part of `bmap` that goes through the indirect block. */
    method BmapIndirect(i: nat, w: nat) returns (r: Option<nat>, ghost bm: set<nat>)
      requires Consistent() && i in inodes && w < NINDIRECT
      modifies this`d, this`inodes, this`owner, this`log
      ensures Consistent() && Extends(old(d), old(inodes), d, inodes, i)
      ensures r.None? ==> Full(sb, d)
      ensures r.Some? ==> r.value == SlotAddr(d, inodes[i], NDIRECT + 1 + w) != 0
      ensures r.Some? ==> owner == old(owner)[inodes[i].addrs[NDIRECT] := (i, NDIRECT)][r.value := (i, NDIRECT + 1 + w)]
      ensures r.Some? ==> log.blocks <= old(log).blocks + bm + {r.value} + IndirectSet(inodes[i])
      ensures OnlySlot(old(inodes)[i], inodes[i], NDIRECT)
      ensures |bm| <= 1 + (if old(inodes)[i].addrs[NDIRECT] == 0 != inodes[i].addrs[NDIRECT] then 1 else 0)
      ensures Traced(sb.bmapstart, old(d), old(log), d, log)
      ensures SlotAddr(old(d), old(inodes)[i], NDIRECT + 1 + w) != 0 ==>
        bm == {} && r.Some? && d == old(d) && inodes == old(inodes) && owner == old(owner) && log == old(log)
    {
      ghost var d0, inodes0 := d, inodes;
      r, bm := FillDirect(i, NDIRECT);
      if r.Some? {
        ghost var d1, inodes1, bm1, log1 := d, inodes, bm, log;
        assert AddrsOwned(d, inodes[i], i, owner);
        r, bm := FillEntry(i, w);
        TracedTrans(sb.bmapstart, d0, old(log), d1, log1, d, log);
        ExtendsTrans(d0, inodes0, d1, inodes1, d, inodes, i);
        bm := bm + bm1;
      }
    }

    /**
     `bmap`: the address of block bn, allocated if missing; None is the panic "out of blocks".
     `bm` are the bitmap blocks it touched.
     */
    method Bmap(i: nat, bn: nat) returns (r: Option<nat>, ghost bm: set<nat>)
      requires Consistent() && i in inodes && bn < MAXFILE
      modifies this`d, this`inodes, this`owner, this`log
      ensures Consistent() && Extends(old(d), old(inodes), d, inodes, i)
      ensures r.None? ==> Full(sb, d)
      ensures r.Some? ==>
        && r.value == SlotAddr(d, inodes[i], DataSlot(bn)) == BlockOf(d, inodes[i], bn) != 0
        && owner == (if bn < NDIRECT then old(owner) else old(owner)[inodes[i].addrs[NDIRECT] := (i, NDIRECT)])
                    [r.value := (i, DataSlot(bn))]
        && log.blocks <= old(log).blocks + bm + {r.value} + IndirectSet(inodes[i])
        && |bm| <= 1 + (if old(inodes)[i].addrs[NDIRECT] == 0 != inodes[i].addrs[NDIRECT] then 1 else 0)
      ensures OnlySlot(old(inodes)[i], inodes[i], Top(bn)) && (r.Some? ==> inodes[i].addrs[Top(bn)] != 0)
      ensures Traced(sb.bmapstart, old(d), old(log), d, log)
      ensures HasBlock(old(d), old(inodes)[i], bn) ==>
        bm == {} && r.Some? && d == old(d) && inodes == old(inodes) && owner == old(owner) && log == old(log)
    {
      if bn < NDIRECT {
        r, bm := FillDirect(i, bn);
      } else {
        r, bm := BmapIndirect(i, bn - NDIRECT);
      }
      BlockPlace(d, inodes[i], bn);
    }

    /** Nothing is missing below any size, and the inode blocks are up to date. */
    ghost predicate Valid()
      reads this
    {
      Consistent() && AllFull(d, inodes) && OnDisk(sb, d, inodes)
    }

    /**
     `iupdate`: the disk holds the inode as it is in memory; the other seven of its block, and
     all other blocks, are as they were.
     */
    method Iupdate(i: nat)
      requires |d| == sb.size && i in inodes && i < sb.ninodes && Storable(inodes[i])
      modifies this`d, this`log
      ensures |d| == sb.size && DinodeAt(sb, d, i) == inodes[i] && Laid(d[sb.inodestart + i / 8], i % 8, inodes[i])
      ensures forall j :: 0 <= j < sb.ninodes && j != i ==> DinodeAt(sb, d, j) == DinodeAt(sb, old(d), j)
      ensures forall b :: 0 <= b < sb.size && b != InodeBlock(sb, i) ==> d[b] == old(d)[b]
      ensures SameData(sb, old(d), d)
      ensures log.blocks == old(log).blocks + {InodeBlock(sb, i)} && Traced(sb.inodestart, old(d), old(log), d, log)
    {
      var b, ip := InodeBlock(sb, i), inodes[i];
      var blk := PackInode(d[b], i % IPB, ip);
      StoredAll(sb, d, i, ip);
      TracedNone(sb.inodestart, d, log);
      TracedOne(sb.inodestart, d, log, d, log, b, blk);
      LogWrite(b, blk);
      assert d == Stored(sb, old(d), i, ip);
    }

    /** `ilock` of an inode that is not in memory: what the disk holds. false is the panic "no type". */
    method Ilock(i: nat) returns (ok: bool)
      requires |d| == sb.size && i < sb.ninodes
      modifies this`inodes
      ensures inodes == old(inodes)[i := DinodeAt(sb, d, i)] && Laid(d[sb.inodestart + i / 8], i % 8, inodes[i])
      ensures var blk, o := d[sb.inodestart + i / 8], 64 * (i % 8); ok <==> blk[o] != 0 || blk[o + 1] != 0
    {
      var ip := UnpackInode(d[InodeBlock(sb, i)], i % IPB);
      inodes := inodes[i := ip];
      return ip.kind % 65536 != 0;
    }

    /** One round of the loop of `writei`: the piece of `src` that goes into one block. */
    method WritePiece(i: nat, off: nat, src: seq<Byte>, tot: nat, ghost d0: Image, ghost n0: map<nat, Inode>)
      returns (r: Option<nat>, ghost bm: set<nat>, ghost a: nat)
      requires Consistent() && tot < |src| && off + |src| <= MAXBYTES && i in inodes
      requires Writes(d0, n0, d, inodes, i, off, src[..tot])
      modifies this`d, this`inodes, this`owner, this`log
      ensures Consistent()
      ensures r.None? ==> Full(sb, d)
      ensures Traced(sb.bmapstart, old(d), old(log), d, log)
      ensures r.Some? ==>
        && r.value == Chunk(off, tot, |src|) && tot + r.value <= |src|
        && Writes(d0, n0, d, inodes, i, off, src[..tot + r.value])
        && log.blocks <= old(log).blocks + bm + {a} + IndirectSet(inodes[i])
        && AddrKept(old(inodes)[i], inodes[i], NDIRECT) && AddrKept(old(inodes)[i], inodes[i], Top((off + tot) / BSIZE))
        && |bm| <= 1 + (if old(inodes)[i].addrs[NDIRECT] == 0 != inodes[i].addrs[NDIRECT] then 1 else 0)
        && (HasBlock(old(d), old(inodes)[i], (off + tot) / BSIZE) ==> bm == {}) && log.blocks != {}
        && OnlySlot(old(inodes)[i], inodes[i], Top((off + tot) / BSIZE))
        && inodes[i].addrs[Top((off + tot) / BSIZE)] != 0
    {
      var pos := off + tot;
      ghost var d1, n1, log1 := d, inodes, log;
      var addr, bm' := Bmap(i, pos / BSIZE);
      bm, a := bm', 0;
      if addr.None? {
        return None, bm, 0;
      }
      a := addr.value;
      var m := Chunk(off, tot, |src|);
      PutPiece(i, off, src, tot, m, addr.value, d0, n0, d1, n1, log1);
      return Some(m), bm, a;
    }

    /** memmove into the block that holds the position, and log_write. */
    method PutPiece(i: nat, off: nat, src: seq<Byte>, tot: nat, m: nat, a: nat, ghost d0: Image,
                    ghost n0: map<nat, Inode>,
                    ghost d1: Image, ghost n1: map<nat, Inode>, ghost log1: Log)
      requires Consistent() && i in inodes && tot + m <= |src| && off + |src| <= MAXBYTES
      requires (off + tot) % BSIZE + m <= BSIZE
      requires off + tot < MAXBYTES && a == SlotAddr(d, inodes[i], DataSlot((off + tot) / BSIZE)) != 0
      requires Writes(d0, n0, d1, n1, i, off, src[..tot]) && Extends(d1, n1, d, inodes, i)
      requires Traced(sb.bmapstart, d1, log1, d, log)
      modifies this`d, this`log
      ensures Consistent() && Writes(d0, n0, d, inodes, i, off, src[..tot + m])
      ensures Traced(sb.bmapstart, d1, log1, d, log) && log.blocks == old(log).blocks + {a}
      ensures i in n1 && AddrKept(n1[i], inodes[i], NDIRECT) && AddrKept(n1[i], inodes[i], Top((off + tot) / BSIZE))
    {
      SlotInData(sb, d, inodes, owner, i, DataSlot((off + tot) / BSIZE));
      var blk := Overlay(d[a], (off + tot) % BSIZE, src[tot..tot + m]);
      NextPiece(sb, d0, n0, d1, n1, d, inodes, owner, i, off, src, tot, m, a, blk);
      TracedOne(sb.bmapstart, d1, log1, d, log, a, blk);
      LogWrite(a, blk);
    }

    /**
     The loop of `writei`. W are the blocks it logged: at most one data block and one bitmap
     block per block spanned (none for a first block that is there already), and the indirect
     block with its bitmap block.
     */
    method WriteLoop(i: nat, off: nat, src: seq<Byte>) returns (ok: bool, ghost w: set<nat>)
      requires Consistent() && i in inodes && off + |src| <= MAXBYTES
      modifies this`d, this`inodes, this`owner, this`log
      ensures Consistent()
      ensures !ok ==> Full(sb, d)
      ensures Traced(sb.bmapstart, old(d), old(log), d, log)
      ensures ok ==>
        && Writes(old(d), old(inodes), d, inodes, i, off, src) && i in inodes
        && TopsFilled(old(inodes)[i], inodes[i], off, |src|)
        && log.blocks <= old(log).blocks + w && (src != [] ==> log.blocks != {})
        && |w| <= 2 * Span(off, |src|) + 2 - Spared(old(d), old(inodes)[i], off, |src|)
    {
      var tot := 0;
      ghost var d0, n0, data, bms := d, inodes, {}, {};
      WritesNothing(sb, d, inodes, owner, i, off);
      TracedNone(sb.bmapstart, d, log);
      assert src[..0] == [];
      w := {};
      while tot < |src|
        invariant Consistent() && SoFar(sb, d0, n0, old(log), d, inodes, log, data, bms, i, off, src, tot)
      {
        var r;
        r, data, bms := WriteRound(i, off, src, tot, d0, n0, old(log), data, bms);
        if r.None? {
          return false, w;
        }
        tot := tot + r.value;
      }
      assert src[..tot] == src;
      w := bms + data + IndirectSet(inodes[i]);
      return true, w;
    }

    /** One round of that loop, with what has been logged so far. */
    method WriteRound(i: nat, off: nat, src: seq<Byte>, tot: nat, ghost d0: Image, ghost n0: map<nat, Inode>,
                      ghost before: Log, ghost data: set<nat>, ghost bms: set<nat>)
      returns (r: Option<nat>, ghost data': set<nat>, ghost bms': set<nat>)
      requires Consistent() && tot < |src| && off + |src| <= MAXBYTES
      requires SoFar(sb, d0, n0, before, d, inodes, log, data, bms, i, off, src, tot)
      modifies this`d, this`inodes, this`owner, this`log
      ensures Consistent() && Traced(sb.bmapstart, d0, before, d, log)
      ensures r.None? ==> Full(sb, d)
      ensures r.Some? ==>
        0 < r.value && SoFar(sb, d0, n0, before, d, inodes, log, data', bms', i, off, src, tot + r.value)
    {
      ghost var d1, n1, log1 := d, inodes, log;
      data', bms' := data, bms;
      ghost var bm, a;
      r, bm, a := WritePiece(i, off, src, tot, d0, n0);
      TracedTrans(sb.bmapstart, d0, before, d1, log1, d, log);
      if r.Some? {
        SparedStill(d0, n0[i], d1, n1[i], off, tot, |src|);
        TopsNext(n0[i], n1[i], inodes[i], off, tot, |src|);
        data', bms' := TallyStep(before.blocks, log1.blocks, log.blocks, data, a, bms, bm,
                                 n0[i], n1[i], inodes[i], off, tot, |src|, Spared(d0, n0[i], off, |src|));
      }
    }

    /**
     `writei`: -1, unchanged, exactly when the write starts past the end or ends past the
     largest file; otherwise the file holds `src` at `off`, no other byte of any file changes,
     and the size covers the write. None is the panic "out of blocks".

     A write that grows the file stores the inode. One that does not leaves the inode on the
     disk as it was, which is the inode in memory if and only if no address of the inode that
     the write goes through was missing: filling a hole is not written through.
     */
    method Writei(i: nat, off: nat, src: seq<Byte>) returns (r: Option<int>, ghost w: set<nat>)
      requires Consistent() && i in inodes && i < sb.ninodes && inodes[i].size <= MAXBYTES && off < UINT && |src| < UINT
      modifies this
      ensures r.None? ==> Full(sb, d)
      ensures r == Some(-1) <==> off > old(inodes)[i].size || off + |src| > MAXBYTES
      ensures r == Some(-1) ==> unchanged(this)
      ensures Traced(sb.inodestart, old(d), old(log), d, log)
      ensures r.Some? && r.value != -1 ==>
        && Consistent() && r.value == |src|
        && OthersKept(old(d), old(inodes), d, inodes, i)
        && Wrote(old(d), old(inodes)[i], d, inodes[i], off, src)
        && inodes[i].size == Max(old(inodes)[i].size, off + |src|)
        && Stores(sb, old(d), old(inodes), d, inodes, i, off, |src|) && (src != [] ==> log.blocks != {})
        && log.blocks <= old(log).blocks + w && |w| <= LogCost(off, |src|, Spared(old(d), old(inodes)[i], off, |src|))
      ensures r.Some? && old(Valid()) ==> Valid()
      ensures r == Some(-1) <==> off > old(inodes)[i].size || off + |src| > 71680
      ensures r.Some? && r.value != -1 ==>
        && inodes[i].size == (if off + |src| > old(inodes)[i].size then off + |src| else old(inodes)[i].size)
        && forall k :: 0 <= k < |src| ==> BytePlaced(d, inodes[i], off + k, src[k])
    {
      w := {};
      TracedNone(sb.inodestart, d, log);
      var n := |src|;
      if off > inodes[i].size || (off + n) % UINT < off {
        return Some(-1), w;
      }
      if (off + n) % UINT > MAXBYTES {
        return Some(-1), w;
      }
      ghost var d0, n0, log0, full := d, inodes, log, Valid();
      var ok, w' := WriteLoop(i, off, src);
      TracedFrom(sb.bmapstart, sb.inodestart, d0, log0, d, log);
      w := w';
      if !ok {
        return None, w;
      }
      FinishWrite(i, off, src, d0, n0, log0);
      w := w + {InodeBlock(sb, i)};
      WrotePlaced(d0, n0[i], d, inodes[i], off, src);
      if full {
        StillOnDisk(sb, d0, n0, d, inodes, i, off, n);
      }
      return Some(n), w;
    }

    /** The end of `writei`: the size, if it grows, and then `iupdate`. */
    method FinishWrite(i: nat, off: nat, src: seq<Byte>, ghost d0: Image, ghost n0: map<nat, Inode>, ghost log0: Log)
      requires Consistent() && i < sb.ninodes && |d0| == sb.size && Traced(sb.bmapstart, d0, log0, d, log)
      requires Writes(d0, n0, d, inodes, i, off, src) && i in inodes && TopsFilled(n0[i], inodes[i], off, |src|)
      requires off <= n0[i].size <= MAXBYTES && off + |src| <= MAXBYTES
      modifies this`d, this`inodes, this`log
      ensures Consistent() && OthersKept(d0, n0, d, inodes, i) && Wrote(d0, n0[i], d, inodes[i], off, src)
      ensures inodes[i].size == Max(n0[i].size, off + |src|) && Stores(sb, d0, n0, d, inodes, i, off, |src|)
      ensures AllFull(d0, n0) ==> AllFull(d, inodes)
      ensures Traced(sb.inodestart, d0, log0, d, log)
      ensures old(log).blocks <= log.blocks <= old(log).blocks + {InodeBlock(sb, i)}
    {
      var n := |src|;
      ghost var n1 := inodes;
      TracedFrom(sb.bmapstart, sb.inodestart, d0, log0, d, log);
      KeptOnDisk(sb, d0, log0, d, log);
      if n > 0 && off + n > inodes[i].size {
        StoreSize(i, off, src, d0, n0, log0);
      } else {
        StoresSame(sb, d0, n0, d, inodes, i, off, n);
        assert inodes == Resized(n1, i, Max(n0[i].size, off + n));
      }
      WriteDone(sb, d0, n0, d, n1, owner, i, off, src, inodes);
    }

    /** The new size, and `iupdate`. */
    method StoreSize(i: nat, off: nat, src: seq<Byte>, ghost d0: Image, ghost n0: map<nat, Inode>, ghost log0: Log)
      requires Consistent() && i < sb.ninodes && |d0| == sb.size && Traced(sb.inodestart, d0, log0, d, log)
      requires Writes(d0, n0, d, inodes, i, off, src) && i in inodes && src != []
      requires n0[i].size < off + |src| <= MAXBYTES
      requires forall j :: 0 <= j < sb.ninodes ==> DinodeAt(sb, d, j) == DinodeAt(sb, d0, j)
      modifies this`d, this`inodes, this`log
      ensures |d| == sb.size && inodes == Resized(old(inodes), i, off + |src|)
      ensures Stores(sb, d0, n0, d, inodes, i, off, |src|)
      ensures Owned(sb, d, old(inodes), owner) && Writes(d0, n0, d, old(inodes), i, off, src)
      ensures Traced(sb.inodestart, d0, log0, d, log) && log.blocks == old(log).blocks + {InodeBlock(sb, i)}
    {
      ghost var d1, n1, log1 := d, inodes, log;
      OwnedStorable(sb, d, inodes, owner, i, off + |src|);
      inodes := inodes[i := inodes[i].(size := off + |src|)];
      Iupdate(i);
      GrownWrite(sb, d0, n0, log0, d1, n1, log1, d, inodes, log, owner, i, off, src);
    }

    /** The part of block bn of file i that is read next. */
    method ReadPiece(i: nat, bn: nat, o: nat, m: nat) returns (piece: Option<seq<Byte>>)
      requires Consistent() && i in inodes && bn < MAXFILE && o + m <= BSIZE
      modifies this`d, this`inodes, this`owner, this`log
      ensures Consistent() && Extends(old(d), old(inodes), d, inodes, i)
      ensures Traced(sb.bmapstart, old(d), old(log), d, log)
      ensures piece.None? ==> Full(sb, d)
      ensures piece.Some? ==>
        && HasBlock(d, inodes[i], bn)
        && var a := SlotAddr(d, inodes[i], DataSlot(bn)); a < |d| && piece.value == Stretch(d, a, o, m)
      ensures HasBlock(old(d), old(inodes)[i], bn) ==>
        piece.Some? && d == old(d) && inodes == old(inodes) && owner == old(owner) && log == old(log)
    {
      var a, bm := Bmap(i, bn);
      if a.None? {
        return None;
      }
      SlotInData(sb, d, inodes, owner, i, DataSlot(bn));
      return Some(Stretch(d, a.value, o, m));
    }

    /**
     `readi`: Refused is -1, NoBlocks the panic "out of blocks". Reading returns the bytes of
     the file up to its end. It changes nothing if every block it reads exists; a missing one
     reads as zeroes and is allocated.
     */
    method Readi(i: nat, off: nat, n: nat) returns (r: ReadResult)
      requires Consistent() && i in inodes && inodes[i].size <= MAXBYTES && off < UINT && n < UINT
      modifies this`d, this`inodes, this`owner, this`log
      ensures Consistent() && Extends(old(d), old(inodes), d, inodes, i)
      ensures Traced(sb.bmapstart, old(d), old(log), d, log)
      ensures r.Refused? <==> off > old(inodes)[i].size || off + n >= UINT
      ensures r.Refused? || Covered(old(d), old(inodes)[i], off, off + ReadLength(old(inodes)[i].size, off, n)) ==>
        !r.NoBlocks? && d == old(d) && inodes == old(inodes) && owner == old(owner) && log == old(log)
      ensures r.NoBlocks? ==> Full(sb, d)
      ensures r.Data? ==> r.bytes == FileBytes(old(d), old(inodes)[i], off, ReadLength(old(inodes)[i].size, off, n))
      ensures r.Data? ==>
        && |r.bytes| == (if off + n > old(inodes)[i].size then old(inodes)[i].size - off else n)
        && forall k :: 0 <= k < |r.bytes| ==> BytePlaced(old(d), old(inodes)[i], off + k, r.bytes[k])
    {
      ExtendsRefl(sb, d, inodes, owner, i);
      TracedNone(sb.bmapstart, d, log);
      if off > inodes[i].size || (off + n) % UINT < off {
        return Refused;
      }
      ghost var d0, ip0 := d, inodes[i];
      var dst := ReadLoop(i, off, ReadLength(inodes[i].size, off, n));
      if dst.Some? {
        BytesPlaced(d0, ip0, off, |dst.value|);
      }
      return if dst.Some? then Data(dst.value) else NoBlocks;
    }

    /** What `readi` has done when it has got the bytes `got`. */
    ghost predicate Reading(d0: Image, n0: map<nat, Inode>, owner0: Owner, log0: Log, i: nat, off: nat, n: nat,
                            got: seq<Byte>)
      requires i in n0 && off + n <= MAXBYTES
      reads this
    {
      && Consistent() && i in inodes && Extends(d0, n0, d, inodes, i) && Traced(sb.bmapstart, d0, log0, d, log)
      && (Covered(d0, n0[i], off, off + n) ==> d == d0 && inodes == n0 && owner == owner0 && log == log0)
      && |got| <= n && got == FileBytes(d0, n0[i], off, |got|)
    }

    /** The loop of `readi`. */
    method ReadLoop(i: nat, off: nat, n: nat) returns (dst: Option<seq<Byte>>)
      requires Consistent() && i in inodes && off + n <= MAXBYTES
      modifies this`d, this`inodes, this`owner, this`log
      ensures Consistent() && Extends(old(d), old(inodes), d, inodes, i)
      ensures Traced(sb.bmapstart, old(d), old(log), d, log)
      ensures Covered(old(d), old(inodes)[i], off, off + n) ==>
        dst.Some? && d == old(d) && inodes == old(inodes) && owner == old(owner) && log == old(log)
      ensures dst.None? ==> Full(sb, d)
      ensures dst.Some? ==> dst.value == FileBytes(old(d), old(inodes)[i], off, n)
    {
      ExtendsRefl(sb, d, inodes, owner, i);
      TracedNone(sb.bmapstart, d, log);
      var got: seq<Byte> := [];
      while |got| < n
        invariant Reading(old(d), old(inodes), old(owner), old(log), i, off, n, got)
      {
        var more := ReadRound(i, off, n, got, old(d), old(inodes), old(owner), old(log));
        if more.None? {
          return None;
        }
        got := more.value;
      }
      return Some(got);
    }

    /** One round of that loop. */
    method ReadRound(i: nat, off: nat, n: nat, got: seq<Byte>, ghost d0: Image, ghost n0: map<nat, Inode>,
                     ghost owner0: Owner, ghost log0: Log)
      returns (more: Option<seq<Byte>>)
      requires i in n0 && |got| < n && off + n <= MAXBYTES && Reading(d0, n0, owner0, log0, i, off, n, got)
      modifies this`d, this`inodes, this`owner, this`log
      ensures Consistent() && Extends(d0, n0, d, inodes, i) && Traced(sb.bmapstart, d0, log0, d, log)
      ensures more.None? ==> Full(sb, d) && !Covered(d0, n0[i], off, off + n)
      ensures more.Some? ==> |got| < |more.value| && Reading(d0, n0, owner0, log0, i, off, n, more.value)
    {
      ghost var d1, n1, log1 := d, inodes, log;
      var pos, m := off + |got|, Chunk(off, |got|, n);
      assert InStretch(pos / BSIZE, off, off + n);
      var piece := ReadPiece(i, pos / BSIZE, pos % BSIZE, m);
      TracedTrans(sb.bmapstart, d0, log0, d1, log1, d, log);
      ExtendsTrans(d0, n0, d1, n1, d, inodes, i);
      if piece.None? {
        return None;
      }
      ReadMore(sb, d0, n0, d, inodes, owner, i, off, n, got, piece.value);
      return Some(got + piece.value);
    }

    /** One transaction of `filewrite`: begin_op, writei, end_op. */
    method WriteChunk(i: nat, off: nat, chunk: seq<Byte>) returns (r: Option<int>)
      requires Valid() && i in inodes && off < UINT && 0 < |chunk| <= MAXCHUNK
      modifies this
      ensures r.None? ==> Full(sb, d)
      ensures r == Some(-1) <==> off > old(inodes)[i].size || off + |chunk| > MAXBYTES
      ensures r == Some(-1) ==> d == old(d) && inodes == old(inodes) && Valid() && log == NOLOG
      ensures r.Some? && r.value != -1 ==>
        && Valid() && r.value == |chunk|
        && OthersKept(old(d), old(inodes), d, inodes, i)
        && Wrote(old(d), old(inodes)[i], d, inodes[i], off, chunk)
        && inodes[i].size == Max(old(inodes)[i].size, off + |chunk|)
        && Fits(sb, old(d), d, log)
    {
      log := NOLOG;
      ghost var d0 := d;
      assert NoHoles(d, inodes[i]) && Current(sb, d, inodes, i);
      var r', w := Writei(i, off, chunk);
      r := r';
      if r.Some? && r.value != -1 {
        if |chunk| > 0 && off % BSIZE > 0 {
          assert HasBlock(d0, old(inodes)[i], off / BSIZE);
        }
        ChunkFits(off, |chunk|, Spared(d0, old(inodes)[i], off, |chunk|));
        Smaller(log.blocks, w);
        TracedAll(sb.inodestart, d0, d, log);
      }
    }

    /**
     `filewrite` on an inode: chunks of at most 1536 bytes, each its own transaction that logs
     at most MAXOPBLOCKS blocks. None is the panic "out of blocks"; "short filewrite" cannot
     happen. On -1 the chunks that fit stay written.
     */
    method FileWrite(i: nat, off: nat, src: seq<Byte>)
      returns (r: Option<int>, off': nat, logs: seq<Log>, ghost states: seq<Image>)
      requires Valid() && i in inodes && off < UINT && |src| < UINT / 2
      modifies this
      ensures r.None? ==> Full(sb, d)
      ensures Transactions(sb, old(d), old(inodes).Keys, states, logs, i, off, src)
      ensures r.Some? ==>
        && Valid() && states[|states| - 1] == d
        && var k := Accepted(old(inodes)[i].size, off, |src|);
           && off' == off + k
           && Taken(old(d), old(inodes), d, inodes, i, off, src[..k])
           && r.value == (if k == |src| then |src| else -1)
      ensures r.Some? ==> Returns(old(inodes)[i].size, off, |src|, r.value, off')
    {
      var idx, n := 0, |src|;
      off', logs, states := off, [], [d];
      ghost var d0, n0 := d, inodes;
      StartWrite(sb, d, inodes, owner, i, off);
      assert src[..0] == [];
      FirstState(sb, d, inodes, owner, i, off, src);
      while idx < n
        invariant Valid() && off' == off + idx && off' < UINT
        invariant FileSoFar(sb, d0, n0, states, logs, d, inodes, i, off, src, idx)
      {
        var r';
        r', logs, states := NextTransaction(i, off, src, idx, d0, n0, states, logs);
        if r'.None? {
          return None, off', logs, states;
        }
        if r'.value < 0 {
          NextChunk(|logs|, idx, n);
          AcceptedStops(n0[i].size, off, idx, n, ChunkSize(idx, n));
          AcceptedReturns(n0[i].size, off, n);
          return Some(-1), off', logs, states;
        }
        off', idx := off' + r'.value, idx + r'.value;
      }
      AcceptedAll(n0[i].size, off, n);
      AcceptedReturns(n0[i].size, off, n);
      return Some(n), off', logs, states;
    }

    /** One round of the loop of `filewrite`. */
    method NextTransaction(i: nat, off: nat, src: seq<Byte>, idx: nat, ghost d0: Image, ghost n0: map<nat, Inode>,
                           ghost states: seq<Image>, logs: seq<Log>)
      returns (r: Option<int>, logs': seq<Log>, ghost states': seq<Image>)
      requires Valid() && idx < |src| && off + idx < UINT
      requires FileSoFar(sb, d0, n0, states, logs, d, inodes, i, off, src, idx)
      modifies this
      ensures r.None? ==> Full(sb, d)
      ensures Transactions(sb, d0, n0.Keys, states', logs', i, off, src)
      ensures r.Some? ==> Valid() && (r.value == -1 || r.value == ChunkSize(idx, |src|))
      ensures r == Some(-1) <==> off + idx > old(inodes)[i].size || off + idx + ChunkSize(idx, |src|) > MAXBYTES
      ensures r == Some(-1) ==>
        FileSoFar(sb, d0, n0, states', logs', d, inodes, i, off, src, idx) && inodes == old(inodes)
      ensures r.Some? && r.value != -1 ==> FileSoFar(sb, d0, n0, states', logs', d, inodes, i, off, src, idx + r.value)
    {
      ghost var d1, n1 := d, inodes;
      logs', states' := logs, states;
      var m := ChunkSize(idx, |src|);
      r := WriteChunk(i, off + idx, src[idx..idx + m]);
      if r.Some? && r.value != -1 {
        TakenMore(d0, n0, d1, n1, d, inodes, i, off, src, idx, m);
        NextChunk(|logs|, idx, |src|);
        NextState(sb, d0, n0, states, logs, i, off, src, d, inodes, owner, log);
        logs', states' := logs + [log], states + [d];
      }
    }

    /** The first loop of `itrunc`. */
    method FreeDirectBlocks(i: nat)
      requires Consistent() && i in inodes
      modifies this`d, this`inodes, this`owner, this`log
      ensures Consistent() && Freeing(sb, old(d), old(owner), d, owner, i)
      ensures i in inodes && Emptied(inodes[i], NDIRECT) && inodes == old(inodes)[i := inodes[i]]
      ensures inodes[i].addrs[NDIRECT] == old(inodes)[i].addrs[NDIRECT]
      ensures Traced(sb.bmapstart, old(d), old(log), d, log) && LogsFreed(sb, old(owner), old(log), owner, log)
    {
      ghost var d0, owner0, n0, log0 := d, owner, inodes, log;
      TracedNone(sb.bmapstart, d, log);
      for k := 0 to NDIRECT
        invariant Consistent() && i in inodes && inodes == n0[i := inodes[i]]
        invariant Freeing(sb, d0, owner0, d, owner, i) && Emptied(inodes[i], k)
        invariant inodes[i].addrs[NDIRECT] == n0[i].addrs[NDIRECT]
        invariant Traced(sb.bmapstart, d0, log0, d, log) && LogsFreed(sb, owner0, log0, owner, log)
      {
        if inodes[i].addrs[k] != 0 {
          FreeDirectOne(i, k, d0, owner0, log0);
        }
      }
    }

    /** One round of that loop for a slot in use. */
    method FreeDirectOne(i: nat, k: nat, ghost d0: Image, ghost owner0: Owner, ghost log0: Log)
      requires Consistent() && i in inodes && k < NDIRECT && inodes[i].addrs[k] != 0
      requires Freeing(sb, d0, owner0, d, owner, i)
      requires Traced(sb.bmapstart, d0, log0, d, log) && LogsFreed(sb, owner0, log0, owner, log)
      modifies this`d, this`inodes, this`owner, this`log
      ensures Consistent() && Freeing(sb, d0, owner0, d, owner, i)
      ensures inodes == SetDirect(old(inodes), i, k, 0)
      ensures Traced(sb.bmapstart, d0, log0, d, log) && LogsFreed(sb, owner0, log0, owner, log)
    {
      var a := inodes[i].addrs[k];
      ghost var d1, log1 := d, log;
      FreeDirectStep(sb, d0, owner0, d, inodes, owner, i, k);
      BitmapBlockInRange(sb, a);
      var ok := Bfree(a);
      assert ok;
      TracedTrans(sb.bmapstart, d0, log0, d1, log1, d, log);
      LogsOneMore(sb, owner0, log0, owner, log1, log, a);
      inodes := inodes[i := inodes[i].(addrs := inodes[i].addrs[k := 0])];
      owner := owner - {a};
    }

    /** The second loop of `itrunc` and the bfree after it. */
    method FreeIndirectBlocks(i: nat, ghost d0: Image, ghost owner0: Owner, ghost log0: Log)
      requires Consistent() && i in inodes && 0 < inodes[i].addrs[NDIRECT] < sb.size
      requires Freeing(sb, d0, owner0, d, owner, i) && LogsFreed(sb, owner0, log0, owner, log)
      modifies this`d, this`inodes, this`owner, this`log
      ensures Consistent() && Freeing(sb, d0, owner0, d, owner, i)
      ensures inodes == SetDirect(old(inodes), i, NDIRECT, 0)
      ensures Traced(sb.bmapstart, old(d), old(log), d, log) && LogsFreed(sb, owner0, log0, owner, log)
    {
      TracedNone(sb.bmapstart, d, log);
      var ind := inodes[i].addrs[NDIRECT];
      var blk := d[ind];
      ghost var shadow := blk;
      assert d[ind := shadow] == d;
      SlotInData(sb, d, inodes, owner, i, NDIRECT);
      for j := 0 to NINDIRECT
        invariant inodes == old(inodes) && |d| == sb.size && d[ind] == blk
        invariant Owned(sb, d[ind := shadow], inodes, owner) && Shadow(shadow, blk, j)
        invariant Freeing(sb, d0, owner0, d, owner, i)
        invariant Traced(sb.bmapstart, old(d), old(log), d, log) && LogsFreed(sb, owner0, log0, owner, log)
      {
        ghost var d1, log1 := d, log;
        shadow := FreeEntryOf(i, j, blk, d0, owner0, log0, shadow);
        TracedTrans(sb.bmapstart, old(d), old(log), d1, log1, d, log);
      }
      FreeIndirectStep(sb, d0, owner0, d, inodes, owner, i, shadow);
      BitmapBlockInRange(sb, ind);
      ghost var d2, log2 := d, log;
      var ok := Bfree(ind);
      assert ok;
      TracedTrans(sb.bmapstart, old(d), old(log), d2, log2, d, log);
      LogsOneMore(sb, owner0, log0, owner, log2, log, ind);
      inodes := inodes[i := inodes[i].(addrs := inodes[i].addrs[NDIRECT := 0])];
      owner := owner - {ind};
    }

    /** One round of that loop. */
    method FreeEntryOf(i: nat, j: nat, blk: Block, ghost d0: Image, ghost owner0: Owner, ghost log0: Log,
                       ghost shadow: Block)
      returns (ghost shadow': Block)
      requires i in inodes && |d| == sb.size && 0 < inodes[i].addrs[NDIRECT] < sb.size
      requires d[inodes[i].addrs[NDIRECT]] == blk
      requires sb.datastart <= inodes[i].addrs[NDIRECT] && j < NINDIRECT && Shadow(shadow, blk, j)
      requires Owned(sb, d[inodes[i].addrs[NDIRECT] := shadow], inodes, owner) && Freeing(sb, d0, owner0, d, owner, i)
      requires LogsFreed(sb, owner0, log0, owner, log)
      modifies this`d, this`owner, this`log
      ensures |d| == sb.size && d[inodes[i].addrs[NDIRECT]] == blk && Shadow(shadow', blk, j + 1)
      ensures Owned(sb, d[inodes[i].addrs[NDIRECT] := shadow'], inodes, owner) && Freeing(sb, d0, owner0, d, owner, i)
      ensures Traced(sb.bmapstart, old(d), old(log), d, log) && LogsFreed(sb, owner0, log0, owner, log)
    {
      TracedNone(sb.bmapstart, d, log);
      var a := Word(blk, j);
      shadow' := ShadowStep(shadow, blk, j);
      if a != 0 {
        FreeEntryStep(sb, d0, owner0, d, inodes, owner, i, j, shadow);
        BitmapBlockInRange(sb, a);
        ghost var log1 := log;
        var ok := Bfree(a);
        assert ok;
        LogsOneMore(sb, owner0, log0, owner, log1, log, a);
        owner := owner - {a};
      }
    }

    /** Both loops of `itrunc`. */
    method FreeBlocks(i: nat)
      requires Consistent() && i in inodes
      modifies this`d, this`inodes, this`owner, this`log
      ensures Consistent() && Freeing(sb, old(d), old(owner), d, owner, i)
      ensures i in inodes && Emptied(inodes[i], NDIRECT + 1) && inodes == old(inodes)[i := inodes[i]]
      ensures Traced(sb.bmapstart, old(d), old(log), d, log) && LogsFreed(sb, old(owner), old(log), owner, log)
    {
      ghost var d0, owner0, log0 := d, owner, log;
      FreeDirectBlocks(i);
      if inodes[i].addrs[NDIRECT] != 0 {
        SlotInData(sb, d, inodes, owner, i, NDIRECT);
        ghost var d1, log1 := d, log;
        FreeIndirectBlocks(i, d0, owner0, log0);
        TracedTrans(sb.bmapstart, d0, log0, d1, log1, d, log);
      }
    }

    /**
     `itrunc`: exactly the blocks of inode i become free, none of them twice (the panic
     "freeing free block" is unreachable), and no other file changes. It logs the bitmap blocks
     of the file and the block of the inode, and no other block is written.
     */
    method Itrunc(i: nat)
      requires Valid() && i in inodes
      modifies this
      ensures Valid() && Released(sb, old(d), old(inodes), old(owner), d, inodes, i)
      ensures inodes[i].size == 0 && Emptied(inodes[i], NDIRECT + 1)
      ensures Traced(sb.inodestart, old(d), old(log), d, log)
      ensures log.blocks == old(log).blocks + (BitmapOf(sb, old(owner), i) + {InodeBlock(sb, i)})
      ensures forall b :: 0 <= b < sb.size && !(sb.bmapstart <= b < sb.datastart) && b != InodeBlock(sb, i) ==>
        d[b] == old(d)[b]
    {
      ghost var d0, n0, owner0, log0 := d, inodes, owner, log;
      FreeBlocks(i);
      FreedAll(sb, d0, n0, owner0, d, inodes, owner, i);
      FinishTrunc(i, d0, n0, owner0, log0);
    }

    /** The end of `itrunc`: size 0 and `iupdate`. */
    method FinishTrunc(i: nat, ghost d0: Image, ghost n0: map<nat, Inode>, ghost owner0: Owner, ghost log0: Log)
      requires Owned(sb, d0, n0, owner0) && AllFull(d0, n0) && OnDisk(sb, d0, n0) && i in n0
      requires Consistent() && i in inodes && inodes == n0[i := inodes[i]] && Emptied(inodes[i], NDIRECT + 1)
      requires Freeing(sb, d0, owner0, d, owner, i) && Traced(sb.bmapstart, d0, log0, d, log)
      modifies this`d, this`inodes, this`log
      ensures Valid() && Released(sb, d0, n0, owner0, d, inodes, i)
      ensures i in inodes && inodes[i].size == 0 && Emptied(inodes[i], NDIRECT + 1)
      ensures Traced(sb.inodestart, d0, log0, d, log) && log.blocks == old(log).blocks + {InodeBlock(sb, i)}
      ensures forall b :: 0 <= b < sb.size && b != InodeBlock(sb, i) ==> d[b] == old(d)[b]
    {
      ghost var d2, log2 := d, log;
      assert Current(sb, d0, n0, i);
      TracedFrom(sb.bmapstart, sb.inodestart, d0, log0, d2, log2);
      KeptOnDisk(sb, d0, log0, d2, log2);
      ReleasedEmpty(sb, d0, n0, owner0, d, inodes, owner, i);
      OwnedStorable(sb, d, inodes, owner, i, 0);
      inodes := inodes[i := inodes[i].(size := 0)];
      Iupdate(i);
      TracedTrans(sb.inodestart, d0, log0, d2, log2, d, log);
      ReleasedStored(sb, d0, n0, owner0, d2, d, inodes, owner, i);
      StillCurrent(sb, d0, n0, d, inodes, i);
    }
  }

  lemma EntryFilled(sb: Super, d: Image, inodes: map<nat, Inode>, owner: Owner, a: nat, i: nat, w: nat, d1: Image,
                    blk: Block)
    requires Owned(sb, d, inodes, owner) && 0 < a < sb.size && !Used(sb, d, a)
    requires i in inodes && AddrsOwned(d, inodes[i], i, owner) && 0 < inodes[i].addrs[NDIRECT] < |d| && w < NINDIRECT
    requires SlotAddr(d, inodes[i], NDIRECT + 1 + w) == 0
    requires d1 == Allocated(sb, d, a) && blk == SetWord(d1[inodes[i].addrs[NDIRECT]], w, a)
    ensures var d' := d1[inodes[i].addrs[NDIRECT] := blk];
            && Owned(sb, d', inodes, owner[a := (i, NDIRECT + 1 + w)]) && Extends(d, inodes, d', inodes, i)
            && SlotAddr(d', inodes[i], NDIRECT + 1 + w) == a
  {
    AllocEntry(sb, d, inodes, owner, a, i, w);
    AllocEntryExtends(sb, d, inodes, owner, a, i, w);
    AllocEntrySlots(sb, d, inodes, owner, a, i, w, i, NDIRECT + 1 + w);
  }

  // ------------------------------------------------------------- inodes and slots

  /** The disk holds the inodes as they are in memory. */
  ghost predicate OnDisk(sb: Super, d: Image, n: map<nat, Inode>) {
    |d| == sb.size && forall j {:trigger Current(sb, d, n, j)} :: j in n ==> Current(sb, d, n, j)
  }

  ghost predicate Current(sb: Super, d: Image, n: map<nat, Inode>, j: nat)
    requires |d| == sb.size && j in n
  {
    j < sb.ninodes && DinodeAt(sb, d, j) == n[j]
  }

  /** What a write of n bytes at off leaves on the disk for inode i and for the others. */
  ghost predicate Stores(sb: Super, d0: Image, n0: map<nat, Inode>, d: Image, n1: map<nat, Inode>, i: nat, off: nat,
                         n: nat)
    requires |d0| == |d| == sb.size && i in n0 && i in n1 && i < sb.ninodes
  {
    && (forall j :: 0 <= j < sb.ninodes && j != i ==> DinodeAt(sb, d, j) == DinodeAt(sb, d0, j))
    && if n > 0 && off + n > n0[i].size then DinodeAt(sb, d, i) == n1[i]
       else DinodeAt(sb, d, i) == DinodeAt(sb, d0, i) && (n1[i] == n0[i] <==> TopsPresent(n0[i], off, n))
  }

  /** A write that grew the file, and the block of its inode. */
  lemma GrownWrite(sb: Super, d0: Image, n0: map<nat, Inode>, log0: Log, d1: Image, n1: map<nat, Inode>, log1: Log,
                   d: Image, n: map<nat, Inode>, log: Log, owner: Owner, i: nat, off: nat, src: seq<Byte>)
    requires |d0| == |d1| == sb.size && i in n0 && i in n && i < sb.ninodes && src != [] && off + |src| > n0[i].size
    requires Traced(sb.inodestart, d0, log0, d1, log1) && Traced(sb.inodestart, d1, log1, d, log) && SameData(sb, d1, d)
    requires Owned(sb, d1, n1, owner) && Writes(d0, n0, d1, n1, i, off, src)
    requires forall j :: 0 <= j < sb.ninodes ==> DinodeAt(sb, d1, j) == DinodeAt(sb, d0, j)
    requires forall j :: 0 <= j < sb.ninodes && j != i ==> DinodeAt(sb, d, j) == DinodeAt(sb, d1, j)
    requires DinodeAt(sb, d, i) == n[i]
    ensures Traced(sb.inodestart, d0, log0, d, log) && Owned(sb, d, n1, owner) && Writes(d0, n0, d, n1, i, off, src)
    ensures Stores(sb, d0, n0, d, n, i, off, |src|)
  {
    TracedTrans(sb.inodestart, d0, log0, d1, log1, d, log);
    MetaExtends(sb, d1, d, n1, owner, i);
    WritesExtends(d0, n0, d1, n1, d, n1, i, off, src);
    StoresGrown(sb, d0, n0, d1, d, n, i, off, |src|);
  }

  lemma StoresGrown(sb: Super, d0: Image, n0: map<nat, Inode>, d1: Image, d: Image, n: map<nat, Inode>, i: nat,
                    off: nat, k: nat)
    requires |d0| == |d1| == |d| == sb.size && i in n0 && i in n && i < sb.ninodes && k > 0 && off + k > n0[i].size
    requires forall j :: 0 <= j < sb.ninodes ==> DinodeAt(sb, d1, j) == DinodeAt(sb, d0, j)
    requires forall j :: 0 <= j < sb.ninodes && j != i ==> DinodeAt(sb, d, j) == DinodeAt(sb, d1, j)
    requires DinodeAt(sb, d, i) == n[i]
    ensures Stores(sb, d0, n0, d, n, i, off, k)
  {
  }

  lemma StoresSame(sb: Super, d0: Image, n0: map<nat, Inode>, d: Image, n: map<nat, Inode>, i: nat, off: nat, k: nat)
    requires |d0| == |d| == sb.size && i in n0 && i in n && i < sb.ninodes && !(k > 0 && off + k > n0[i].size)
    requires forall j :: 0 <= j < sb.ninodes ==> DinodeAt(sb, d, j) == DinodeAt(sb, d0, j)
    requires TopsFilled(n0[i], n[i], off, k)
    ensures Stores(sb, d0, n0, d, n, i, off, k)
  {
    TopsSame(n0[i], n[i], off, k);
  }

  lemma StillCurrent(sb: Super, d0: Image, n0: map<nat, Inode>, d: Image, n: map<nat, Inode>, i: nat)
    requires OnDisk(sb, d0, n0) && |d| == sb.size && i in n && n == n0[i := n[i]] && i < sb.ninodes
    requires DinodeAt(sb, d, i) == n[i]
    requires forall j :: 0 <= j < sb.ninodes && j != i ==> DinodeAt(sb, d, j) == DinodeAt(sb, d0, j)
    ensures OnDisk(sb, d, n)
  {
    forall j | j in n ensures Current(sb, d, n, j) {
      assert j != i ==> Current(sb, d0, n0, j);
    }
  }

  lemma KeptOnDisk(sb: Super, d0: Image, log0: Log, d: Image, log: Log)
    requires Traced(sb.bmapstart, d0, log0, d, log) && |d0| == sb.size
    ensures |d| == sb.size && forall j :: 0 <= j < sb.ninodes ==> DinodeAt(sb, d, j) == DinodeAt(sb, d0, j)
  {
    forall j | 0 <= j < sb.ninodes ensures DinodeAt(sb, d, j) == DinodeAt(sb, d0, j) {
      TracedInodes(sb, d0, log0, d, log, j);
    }
  }

  /** The address of the inode that block bn is found through: its own, or that of the indirect block. */
  function Top(bn: nat): nat {
    if bn < NDIRECT then bn else NDIRECT
  }

  /** Nothing of the inode has changed but address k. */
  ghost predicate OnlySlot(ip: Inode, ip': Inode, k: nat) {
    ip' == ip.(addrs := ip'.addrs) && forall l :: 0 <= l <= NDIRECT && l != k ==> ip'.addrs[l] == ip.addrs[l]
  }

  ghost predicate AddrKept(ip: Inode, ip': Inode, k: nat)
    requires k <= NDIRECT
  {
    ip.addrs[k] != 0 ==> ip'.addrs[k] == ip.addrs[k]
  }

  /** A stretch of n bytes at off goes through address k of the inode. */
  predicate Through(k: nat, off: nat, n: nat) {
    n > 0 && k * BSIZE < off + n && (k < NDIRECT ==> off / BSIZE <= k)
  }

  ghost predicate TopsPresent(ip: Inode, off: nat, n: nat) {
    forall k :: 0 <= k <= NDIRECT && Through(k, off, n) ==> ip.addrs[k] != 0
  }

  /** The addresses that a stretch goes through are there, those that were missing are the only ones that changed. */
  ghost predicate TopsFilled(ip0: Inode, ip: Inode, off: nat, n: nat) {
    && ip == ip0.(addrs := ip.addrs)
    && forall k :: 0 <= k <= NDIRECT ==>
         if Through(k, off, n) && ip0.addrs[k] == 0 then ip.addrs[k] != 0 else ip.addrs[k] == ip0.addrs[k]
  }

  lemma TopsNext(ip0: Inode, ip1: Inode, ip2: Inode, off: nat, tot: nat, n: nat)
    requires tot < n && (tot == 0 || (off + tot) % BSIZE == 0) && TopsFilled(ip0, ip1, off, tot)
    requires var k := Top((off + tot) / BSIZE);
             OnlySlot(ip1, ip2, k) && ip2.addrs[k] != 0 && AddrKept(ip1, ip2, k)
    ensures TopsFilled(ip0, ip2, off, tot + Chunk(off, tot, n))
  {
    var m := tot + Chunk(off, tot, n);
    forall k | 0 <= k <= NDIRECT ensures Through(k, off, m) <==> Through(k, off, tot) || k == Top((off + tot) / BSIZE) {
      ThroughNext(k, off, tot, Chunk(off, tot, n));
    }
  }

  lemma ThroughNext(k: nat, off: nat, tot: nat, m: nat)
    requires tot == 0 || (off + tot) % BSIZE == 0
    requires 0 < m <= BSIZE - (off + tot) % BSIZE && k <= NDIRECT
    ensures Through(k, off, tot + m) <==> Through(k, off, tot) || k == Top((off + tot) / BSIZE)
  {
  }

  lemma TopsSame(ip0: Inode, ip: Inode, off: nat, n: nat)
    requires TopsFilled(ip0, ip, off, n)
    ensures ip == ip0 <==> TopsPresent(ip0, off, n)
  {
    if TopsPresent(ip0, off, n) {
      assert ip.addrs == ip0.addrs;
    }
  }

  /**
   A file system of five blocks whose one file has 512 bytes and no block: writing its first
   byte takes a free block for an address of the inode and does not grow the file.
   */
  lemma HoleExample() returns (sb: Super, d: Image, n: map<nat, Inode>, owner: Owner)
    ensures Owned(sb, d, n, owner) && OnDisk(sb, d, n) && 0 in n && n[0].size == BSIZE
    ensures !TopsPresent(n[0], 0, 1) && !Full(sb, d)
  {
    sb := Super(5, 1, 1, 2, 3);
    var ip := Inode(1, 1, BSIZE, seq(NDIRECT + 1, _ => 0));
    d := [Zeroes(), EncodeInode(Zeroes(), 0, ip), Zeroes()[0 := 7], Zeroes(), Zeroes()];
    n, owner := map[0 := ip], map[];
    InodeRoundTrip(Zeroes(), 0, ip);
    assert Current(sb, d, n, 0);
    forall k | 0 <= k < NSLOT ensures SlotOwned(d, ip, 0, k, owner) {
      assert SlotAddr(d, ip, k) == 0;
    }
    forall a | 0 <= a < sb.size ensures Marked(sb, d, owner, a) {
      assert Bit(7, 0) && Bit(7, 1) && Bit(7, 2) && !Bit(7, 3) && !Bit(7, 4);
    }
    assert Through(0, 0, 1) && !Used(sb, d, 3);
  }

  /** Below the size of a file without holes, no address is missing. */
  lemma TopsOfFull(d: Image, ip: Inode, off: nat, n: nat)
    requires NoHoles(d, ip) && (n == 0 || off + n <= ip.size)
    ensures TopsPresent(ip, off, n)
  {
    forall k | 0 <= k <= NDIRECT && Through(k, off, n) ensures ip.addrs[k] != 0 {
      assert HasBlock(d, ip, k);
    }
  }

  /** The size covers the write, and a file system without holes has none now. */
  lemma WriteDone(sb: Super, d0: Image, n0: map<nat, Inode>, d: Image, n1: map<nat, Inode>, owner: Owner, i: nat,
                  off: nat, src: seq<Byte>, n: map<nat, Inode>)
    requires Writes(d0, n0, d, n1, i, off, src) && Owned(sb, d, n1, owner) && off <= n0[i].size <= MAXBYTES
    requires off + |src| <= MAXBYTES
    requires n == Resized(n1, i, Max(n0[i].size, off + |src|))
    ensures Owned(sb, d, n, owner) && OthersKept(d0, n0, d, n, i) && Wrote(d0, n0[i], d, n[i], off, src)
    ensures AllFull(d0, n0) ==> AllFull(d, n)
  {
    var size := Max(n0[i].size, off + |src|);
    ResizedOwned(sb, d, n1, owner, i, size);
    ResizedWrote(d0, n0[i], d, n1[i], off, src, size);
    ResizedOthers(d0, n0, d, n1, i, size);
    if AllFull(d0, n0) {
      WrittenFull(d0, n0, d, n1, i, off, src, size);
    }
  }

  /** The blocks that itrunc has logged so far. */
  ghost predicate LogsFreed(sb: Super, owner0: Owner, log0: Log, owner: Owner, log: Log) {
    log.blocks == log0.blocks + FreedBits(sb, owner0, owner)
  }

  lemma LogsOneMore(sb: Super, owner0: Owner, log0: Log, owner: Owner, log: Log, log': Log, a: nat)
    requires LogsFreed(sb, owner0, log0, owner, log) && a in owner0 && a in owner
    requires log'.blocks == log.blocks + {BitmapBlock(sb, a)}
    ensures LogsFreed(sb, owner0, log0, owner - {a}, log')
  {
    FreedMore(sb, owner0, owner, a);
  }

  /** A truncation is one still when the block of the inode has been written. */
  lemma ReleasedStored(sb: Super, d0: Image, n0: map<nat, Inode>, owner0: Owner, d: Image, d': Image,
                       n: map<nat, Inode>, owner: Owner, i: nat)
    requires Released(sb, d0, n0, owner0, d, n, i) && Owned(sb, d, n, owner) && AllFull(d, n) && SameData(sb, d, d')
    ensures Owned(sb, d', n, owner)
    ensures Released(sb, d0, n0, owner0, d', n, i) && AllFull(d', n)
  {
    MetaExtends(sb, d, d', n, owner, i);
    forall a | 0 <= a < sb.size ensures Used(sb, d', a) == Used(sb, d, a) {
      UsedFrame(sb, d, d', a);
    }
    forall j | j in n ensures NoHoles(d', n[j]) && (j in n0 && j != i ==> n[j] == n0[j] && Kept(d0, n0[j], d', n[j])) {
      assert NoHoles(d, n[j]) && Kept(d, n[j], d', n[j]);
      KeptNoHoles(d, n[j], d', n[j]);
      if j in n0 && j != i {
        assert Kept(d0, n0[j], d, n[j]);
        KeptTrans(d0, n0[j], d, n[j], d', n[j]);
      }
    }
  }

  /** With every slot empty, size 0 leaves a valid file system. */
  lemma ReleasedEmpty(sb: Super, d0: Image, n0: map<nat, Inode>, owner0: Owner, d: Image, n: map<nat, Inode>,
                      owner: Owner, i: nat)
    requires Owned(sb, d0, n0, owner0) && Owned(sb, d, n, owner) && Freeing(sb, d0, owner0, d, owner, i)
    requires i in n0 && i in n && n == n0[i := n[i]] && Emptied(n[i], NDIRECT + 1) && AllFull(d0, n0)
    ensures Owned(sb, d, Resized(n, i, 0), owner) && AllFull(d, Resized(n, i, 0))
    ensures Released(sb, d0, n0, owner0, d, Resized(n, i, 0), i)
  {
    ReleasedAll(sb, d0, n0, owner0, d, n, owner, i);
    ResizedOwned(sb, d, n, owner, i, 0);
    ReleasedFull(sb, d0, n0, owner0, d, n, i);
  }

  lemma ReleasedFull(sb: Super, d0: Image, n0: map<nat, Inode>, owner0: Owner, d: Image, n: map<nat, Inode>, i: nat)
    requires Released(sb, d0, n0, owner0, d, n, i) && i in n0 && AllFull(d0, n0)
    ensures Released(sb, d0, n0, owner0, d, Resized(n, i, 0), i) && AllFull(d, Resized(n, i, 0))
  {
    var m := Resized(n, i, 0);
    forall j | j in n0 && j != i ensures m[j] == n0[j] && Kept(d0, n0[j], d, m[j]) {
      assert Kept(d0, n0[j], d, n[j]);
    }
    forall j | j in m ensures NoHoles(d, m[j]) {
      assert NoHoles(d0, n0[j]);
      if j != i {
        KeptNoHoles(d0, n0[j], d, m[j]);
      }
    }
  }

  /** `((MAXOPBLOCKS - 1 - 1 - 2) / 2) * 512` */
  const MAXCHUNK := ((MAXOPBLOCKS - 1 - 1 - 2) / 2) * 512

  /** How much of n bytes at off filewrite takes: all of them, or the whole chunks that fit. */
  function Accepted(size: nat, off: nat, n: nat): (k: nat)
    ensures k <= n
  {
    if off > size then 0
    else if off + n <= MAXBYTES then n
    else if off > MAXBYTES then 0
    else (MAXBYTES - off) / MAXCHUNK * MAXCHUNK
  }

  function ChunkSize(idx: nat, n: nat): (n1: nat)
    requires idx < n
    ensures 0 < n1 <= MAXCHUNK && idx + n1 <= n
  {
    if n - idx > MAXCHUNK then MAXCHUNK else n - idx
  }

  /** Where chunk t of n bytes begins. */
  function ChunkEnd(t: nat, n: nat): (p: nat)
    ensures p <= n
  {
    if t * MAXCHUNK < n then t * MAXCHUNK else n
  }

  /** The first t chunks of the data. */
  function Chunks(src: seq<Byte>, t: nat): seq<Byte> {
    src[..ChunkEnd(t, |src|)]
  }

  lemma NextChunk(t: nat, idx: nat, n: nat)
    requires idx < n && idx == ChunkEnd(t, n)
    ensures idx % MAXCHUNK == 0 && idx + ChunkSize(idx, n) == ChunkEnd(t + 1, n)
  {
    WholeChunks(t, MAXCHUNK);
  }

  lemma {:induction false} WholeChunks(t: nat, m: nat)
    requires m == 1536
    ensures t * m % m == 0 && (t + 1) * m == t * m + m
  {
    if t > 0 {
      var u := t - 1;
      WholeChunks(u, m);
      assert t * m == u * m + m;
    }
  }

  /** The result and the offset of `filewrite`: all of it, or the whole chunks of 1536 bytes that fit. */
  ghost predicate Returns(size: nat, off: nat, n: nat, r: int, off': nat) {
    var whole := (71680 - off) / 1536 * 1536;
    if n == 0 || (off <= size && off + n <= 71680) then r == n && off' == off + n
    else r == -1 && off' == off + if off > size || off > 71680 then 0 else whole
  }

  lemma AcceptedReturns(size: nat, off: nat, n: nat)
    ensures var k := Accepted(size, off, n); Returns(size, off, n, if k == n then n else -1, off + k)
  {
  }

  lemma AcceptedStops(size: nat, off: nat, idx: nat, n: nat, n1: nat)
    requires idx < n && idx % MAXCHUNK == 0 && n1 == ChunkSize(idx, n)
    requires idx == 0 || (off <= size && off + idx <= MAXBYTES)
    requires off + idx > (if idx == 0 then size else Max(size, off + idx)) || off + idx + n1 > MAXBYTES
    ensures Accepted(size, off, n) == idx
  {
  }

  lemma AcceptedAll(size: nat, off: nat, n: nat)
    requires n == 0 || (off <= size && off + n <= MAXBYTES)
    ensures Accepted(size, off, n) == n
  {
  }

  /**
   A file system in which every block in use has one owner and no file has a hole, with the
   inodes that it holds itself.
   */
  ghost predicate Sound(sb: Super, d: Image, inums: set<nat>) {
    exists n: map<nat, Inode>, owner: Owner ::
      n.Keys == inums && OnDisk(sb, d, n) && Owned(sb, d, n, owner) && AllFull(d, n)
  }

  /** The data, and nothing else, has been written, at off in file i. */
  ghost predicate DataTaken(sb: Super, d0: Image, d: Image, inums: set<nat>, i: nat, off: nat, data: seq<Byte>) {
    exists n0: map<nat, Inode>, n: map<nat, Inode> ::
      n0.Keys == n.Keys == inums && OnDisk(sb, d0, n0) && OnDisk(sb, d, n) && Taken(d0, n0, d, n, i, off, data)
  }

  ghost predicate Between(sb: Super, d0: Image, d: Image, inums: set<nat>, i: nat, off: nat, data: seq<Byte>) {
    Sound(sb, d, inums) && DataTaken(sb, d0, d, inums, i, off, data)
  }

  /** A transaction within MAXOPBLOCKS: its calls of log_write make the one image into the other. */
  ghost predicate Fits(sb: Super, before: Image, after: Image, log: Log) {
    && after == Play(before, log.writes) && From(sb.inodestart, sb.size, log.writes)
    && log.blocks == BlocksOf(log.writes) && 0 < |log.blocks| <= MAXOPBLOCKS
  }

  ghost predicate FitsAt(sb: Super, states: seq<Image>, logs: seq<Log>, t: nat)
    requires t < |logs| && |states| == |logs| + 1
  {
    Fits(sb, states[t], states[t + 1], logs[t])
  }

  /**
   The file system before, between and after the transactions of a filewrite: each of them is
   sound and has exactly its chunks written, and the calls of log_write of a transaction, to at
   most MAXOPBLOCKS blocks, lead from one to the next.
   */
  ghost predicate Transactions(sb: Super, d0: Image, inums: set<nat>, states: seq<Image>, logs: seq<Log>, i: nat,
                               off: nat, src: seq<Byte>) {
    && |states| == |logs| + 1 && states[0] == d0
    && AllBetween(sb, d0, inums, states, i, off, src)
    && (forall t {:trigger FitsAt(sb, states, logs, t)} :: 0 <= t < |logs| ==> FitsAt(sb, states, logs, t))
  }

  ghost predicate AllBetween(sb: Super, d0: Image, inums: set<nat>, states: seq<Image>, i: nat, off: nat,
                             src: seq<Byte>) {
    forall t: nat {:trigger BetweenAt(sb, d0, inums, states, t, i, off, src)} ::
      t < |states| ==> BetweenAt(sb, d0, inums, states, t, i, off, src)
  }

  ghost predicate BetweenAt(sb: Super, d0: Image, inums: set<nat>, states: seq<Image>, t: nat, i: nat, off: nat,
                            src: seq<Byte>)
    requires t < |states|
  {
    Between(sb, d0, states[t], inums, i, off, Chunks(src, t))
  }

  lemma OneMoreBetween(sb: Super, d0: Image, inums: set<nat>, states: seq<Image>, d: Image, i: nat, off: nat,
                       src: seq<Byte>)
    requires AllBetween(sb, d0, inums, states, i, off, src)
    requires Between(sb, d0, d, inums, i, off, Chunks(src, |states|))
    ensures AllBetween(sb, d0, inums, states + [d], i, off, src)
  {
    var states' := states + [d];
    forall t: nat | t < |states'| ensures BetweenAt(sb, d0, inums, states', t, i, off, src) {
      if t < |states| {
        assert states'[t] == states[t] && BetweenAt(sb, d0, inums, states, t, i, off, src);
      }
    }
  }

  /** What holds after idx bytes of a filewrite. */
  ghost predicate FileSoFar(sb: Super, d0: Image, n0: map<nat, Inode>, states: seq<Image>, logs: seq<Log>,
                            d: Image, n: map<nat, Inode>, i: nat, off: nat, src: seq<Byte>, idx: nat) {
    && Transactions(sb, d0, n0.Keys, states, logs, i, off, src) && states[|states| - 1] == d && OnDisk(sb, d0, n0)
    && idx == ChunkEnd(|logs|, |src|) && Taken(d0, n0, d, n, i, off, src[..idx])
    && (idx == 0 || (off <= n0[i].size && off + idx <= MAXBYTES))
  }

  lemma StateBetween(sb: Super, d0: Image, n0: map<nat, Inode>, d: Image, n: map<nat, Inode>, owner: Owner, i: nat,
                     off: nat, data: seq<Byte>)
    requires OnDisk(sb, d0, n0) && OnDisk(sb, d, n) && Owned(sb, d, n, owner) && AllFull(d, n)
    requires Taken(d0, n0, d, n, i, off, data)
    ensures Between(sb, d0, d, n0.Keys, i, off, data)
  {
    assert n.Keys == n0.Keys;
  }

  lemma FirstState(sb: Super, d: Image, n: map<nat, Inode>, owner: Owner, i: nat, off: nat, src: seq<Byte>)
    requires Owned(sb, d, n, owner) && AllFull(d, n) && OnDisk(sb, d, n) && Taken(d, n, d, n, i, off, [])
    ensures Transactions(sb, d, n.Keys, [d], [], i, off, src)
  {
    assert Chunks(src, 0) == [];
    StateBetween(sb, d, n, d, n, owner, i, off, []);
  }

  lemma NextState(sb: Super, d0: Image, n0: map<nat, Inode>, states: seq<Image>, logs: seq<Log>,
                  i: nat, off: nat, src: seq<Byte>, d: Image, n: map<nat, Inode>, owner: Owner, log: Log)
    requires Transactions(sb, d0, n0.Keys, states, logs, i, off, src) && OnDisk(sb, d0, n0) && OnDisk(sb, d, n)
    requires Taken(d0, n0, d, n, i, off, Chunks(src, |states|))
    requires Owned(sb, d, n, owner) && AllFull(d, n) && Fits(sb, states[|states| - 1], d, log)
    ensures Transactions(sb, d0, n0.Keys, states + [d], logs + [log], i, off, src)
  {
    var states', logs' := states + [d], logs + [log];
    StateBetween(sb, d0, n0, d, n, owner, i, off, Chunks(src, |states|));
    OneMoreBetween(sb, d0, n0.Keys, states, d, i, off, src);
    forall t | 0 <= t < |logs'| ensures FitsAt(sb, states', logs', t) {
      if t < |logs| {
        assert FitsAt(sb, states, logs, t);
        assert logs'[t] == logs[t] && states'[t] == states[t] && states'[t + 1] == states[t + 1];
      }
    }
  }

  /** After a write to a file system without holes the disk holds the inodes of memory still. */
  lemma StillOnDisk(sb: Super, d0: Image, n0: map<nat, Inode>, d: Image, n: map<nat, Inode>, i: nat, off: nat, k: nat)
    requires OnDisk(sb, d0, n0) && AllFull(d0, n0) && i in n0 && OthersKept(d0, n0, d, n, i) && |d| == sb.size
    requires i < sb.ninodes
    requires Stores(sb, d0, n0, d, n, i, off, k)
    ensures OnDisk(sb, d, n)
  {
    assert NoHoles(d0, n0[i]);
    if !(k > 0 && off + k > n0[i].size) {
      TopsOfFull(d0, n0[i], off, k);
    }
    OneInodeChanged(d0, n0, d, n, i);
    assert Current(sb, d0, n0, i);
    StillCurrent(sb, d0, n0, d, n, i);
  }

  /** File i holds `data` at `off` and covers it; nothing else of any file has changed. */
  ghost predicate Taken(d0: Image, n0: map<nat, Inode>, d: Image, n: map<nat, Inode>, i: nat, off: nat,
                        data: seq<Byte>) {
    && i in n0 && i in n && OthersKept(d0, n0, d, n, i) && Wrote(d0, n0[i], d, n[i], off, data)
    && n[i].size == if |data| == 0 then n0[i].size else Max(n0[i].size, off + |data|)
  }

  lemma TakenMore(d0: Image, n0: map<nat, Inode>, d1: Image, n1: map<nat, Inode>, d2: Image, n2: map<nat, Inode>,
                  i: nat, off: nat, src: seq<Byte>, idx: nat, m: nat)
    requires idx + m <= |src| && Taken(d0, n0, d1, n1, i, off, src[..idx]) && i in n2 && 0 < m
    requires OthersKept(d1, n1, d2, n2, i) && Wrote(d1, n1[i], d2, n2[i], off + idx, src[idx..idx + m])
    requires n2[i].size == Max(n1[i].size, off + idx + m)
    ensures Taken(d0, n0, d2, n2, i, off, src[..idx + m])
  {
    OthersKeptTrans(d0, n0, d1, n1, d2, n2, i);
    WroteThenWrote(d0, n0[i], d1, n1[i], d2, n2[i], off, src[..idx], src[idx..idx + m]);
    assert src[..idx] + src[idx..idx + m] == src[..idx + m];
  }

  lemma StartWrite(sb: Super, d: Image, n: map<nat, Inode>, owner: Owner, i: nat, off: nat)
    requires Owned(sb, d, n, owner) && i in n
    ensures Taken(d, n, d, n, i, off, [])
  {
    ExtendsRefl(sb, d, n, owner, i);
    forall j | j in n ensures Kept(d, n[j], d, n[j]) {}
    forall pos | 0 <= pos < MAXFILE * BSIZE ensures WroteByte(d, n[i], d, n[i], off, [], pos) {}
  }

  /**
   A chunk of filewrite never logs more blocks than one operation reserved, if a first block
   entered in its middle is there.
   */
  lemma ChunkFits(off: nat, n: nat, spared: nat)
    requires n <= MAXCHUNK && (n > 0 && off % BSIZE > 0 ==> spared > 0)
    ensures LogCost(off, n, spared) <= MAXOPBLOCKS
  {
  }

  lemma Smaller(a: set<nat>, b: set<nat>)
    requires a <= b
    ensures |a| <= |b|
  {
    assert b == a + (b - a);
  }

  function Max(a: nat, b: nat): nat {
    if a < b then b else a
  }

  /** The most blocks that `writei` of n bytes at off puts in the log. */
  function LogCost(off: nat, n: nat, spared: nat): int {
    2 * Span(off, n) + 3 - spared
  }

  /** A first block that is there already needs no bitmap block. */
  ghost function Spared(d: Image, ip: Inode, off: nat, n: nat): nat
    requires off + n <= MAXBYTES
  {
    if n > 0 && HasBlock(d, ip, off / BSIZE) then 1 else 0
  }

  lemma SparedStill(d0: Image, ip0: Inode, d: Image, ip: Inode, off: nat, tot: nat, n: nat)
    requires SlotsKept(d0, ip0, d, ip) && off + n <= MAXBYTES && tot < n
    ensures tot == 0 && Spared(d0, ip0, off, n) > 0 ==> HasBlock(d, ip, (off + tot) / BSIZE)
  {
    if Spared(d0, ip0, off, n) > 0 {
      assert SlotKept(d0, ip0, d, ip, DataSlot(off / BSIZE));
    }
  }

  /** What holds after tot bytes of a write. */
  ghost predicate SoFar(sb: Super, d0: Image, n0: map<nat, Inode>, before: Log, d: Image, n: map<nat, Inode>, log: Log,
                        data: set<nat>, bms: set<nat>, i: nat, off: nat, src: seq<Byte>, tot: nat)
    requires off + |src| <= MAXBYTES
  {
    && i in n0 && i in n && tot <= |src| && Writes(d0, n0, d, n, i, off, src[..tot])
    && TopsFilled(n0[i], n[i], off, tot)
    && Tally(before.blocks, log.blocks, data, bms, n0[i], n[i], off, tot, |src|, Spared(d0, n0[i], off, |src|))
    && Traced(sb.bmapstart, d0, before, d, log) && (tot > 0 ==> log.blocks != {})
  }

  /** Blocks that a stretch of n bytes at off touches. */
  function Span(off: nat, n: nat): nat {
    if n == 0 then 0 else (off + n - 1) / BSIZE - off / BSIZE + 1
  }

  lemma SpanStep(off: nat, tot: nat, m: nat)
    requires tot == 0 || (off + tot) % BSIZE == 0
    requires 0 < m <= BSIZE - (off + tot) % BSIZE
    ensures Span(off, tot + m) == Span(off, tot) + 1
  {
  }

  /** What has been logged after tot bytes: data blocks, bitmap blocks, the indirect block. */
  ghost predicate Tally(before: set<nat>, logged: set<nat>, data: set<nat>, bms: set<nat>, ip0: Inode, ip: Inode,
                        off: nat, tot: nat, n: nat, spared: nat) {
    && (tot == 0 || tot == n || (off + tot) % BSIZE == 0)
    && logged <= before + bms + data + IndirectSet(ip)
    && (ip0.addrs[NDIRECT] != 0 ==> ip.addrs[NDIRECT] == ip0.addrs[NDIRECT])
    && |data| <= Span(off, tot)
    && |bms| <= Span(off, tot) - (if tot > 0 then spared else 0)
                + (if ip0.addrs[NDIRECT] == 0 != ip.addrs[NDIRECT] then 1 else 0)
  }

  lemma TallyStep(before: set<nat>, logged: set<nat>, logged': set<nat>, data: set<nat>, a: nat, bms: set<nat>,
                  bm: set<nat>,
                  ip0: Inode, ip: Inode, ip': Inode, off: nat, tot: nat, n: nat, spared: nat)
    returns (data': set<nat>, bms': set<nat>)
    requires tot < n && spared <= 1 && Tally(before, logged, data, bms, ip0, ip, off, tot, n, spared)
    requires logged' <= logged + bm + {a} + IndirectSet(ip')
    requires ip.addrs[NDIRECT] != 0 ==> ip'.addrs[NDIRECT] == ip.addrs[NDIRECT]
    requires |bm| <= 1 + (if ip.addrs[NDIRECT] == 0 != ip'.addrs[NDIRECT] then 1 else 0)
    requires tot == 0 && spared > 0 ==> bm == {}
    ensures Tally(before, logged', data', bms', ip0, ip', off, tot + Chunk(off, tot, n), n, spared)
  {
    data', bms' := data + {a}, bms + bm;
    SpanStep(off, tot, Chunk(off, tot, n));
    assert |data + {a}| <= |data| + 1;
    assert |bms + bm| <= |bms| + |bm|;
  }

  /** n bytes of a file from off. */
  ghost function FileBytes(d: Image, ip: Inode, off: nat, n: nat): (s: seq<Byte>)
    requires off + n <= MAXBYTES
    ensures |s| == n
  {
    if n == 0 then [] else FileBytes(d, ip, off, n - 1) + [ByteAt(d, ip, off + n - 1)]
  }

  lemma {:induction false} FileBytesAt(d: Image, ip: Inode, off: nat, n: nat, k: nat)
    requires k < n && off + n <= MAXBYTES
    ensures FileBytes(d, ip, off, n)[k] == ByteAt(d, ip, off + k)
  {
    if k < n - 1 {
      FileBytesAt(d, ip, off, n - 1, k);
    }
  }

  /** Reading back what was written. */
  lemma ReadBack(d: Image, ip: Inode, d': Image, ip': Inode, off: nat, data: seq<Byte>)
    requires Wrote(d, ip, d', ip', off, data) && off + |data| <= MAXBYTES
    ensures FileBytes(d', ip', off, |data|) == data
  {
    forall k | 0 <= k < |data| ensures FileBytes(d', ip', off, |data|)[k] == data[k] {
      FileBytesAt(d', ip', off, |data|, k);
      assert WroteByte(d, ip, d', ip', off, data, off + k);
    }
  }

  /** How much of n bytes at off there is to read. */
  function ReadLength(size: nat, off: nat, n: nat): nat
  {
    if off > size then 0 else if off + n > size then size - off else n
  }

  /** Byte pos of a file is b. */
  ghost predicate BytePlaced(d: Image, ip: Inode, pos: nat, b: Byte)
  {
    pos < 71680 && var a := BlockOf(d, ip, pos / 512); b == if 0 < a < |d| then d[a][pos % 512] else 0
  }

  lemma BytesPlaced(d: Image, ip: Inode, off: nat, n: nat)
    requires off + n <= MAXBYTES
    ensures forall k :: 0 <= k < n ==> BytePlaced(d, ip, off + k, FileBytes(d, ip, off, n)[k])
  {
    forall k | 0 <= k < n ensures BytePlaced(d, ip, off + k, FileBytes(d, ip, off, n)[k]) {
      FileBytesAt(d, ip, off, n, k);
      BytePlace(d, ip, off + k);
    }
  }

  lemma WrotePlaced(d: Image, ip: Inode, d': Image, ip': Inode, off: nat, src: seq<Byte>)
    requires Wrote(d, ip, d', ip', off, src) && off + |src| <= MAXBYTES
    ensures forall k :: 0 <= k < |src| ==> BytePlaced(d', ip', off + k, src[k])
  {
    forall k | 0 <= k < |src| ensures BytePlaced(d', ip', off + k, src[k]) {
      assert WroteByte(d, ip, d', ip', off, src, off + k);
      BytePlace(d', ip', off + k);
    }
  }

  lemma SameFileBytes(d: Image, n: map<nat, Inode>, d': Image, n': map<nat, Inode>, i: nat, off: nat, k: nat)
    requires Extends(d, n, d', n', i) && i in n && off + k <= MAXBYTES
    ensures FileBytes(d', n'[i], off, k) == FileBytes(d, n[i], off, k)
  {
    assert Kept(d, n[i], d', n'[i]);
    forall x | 0 <= x < k ensures FileBytes(d', n'[i], off, k)[x] == FileBytes(d, n[i], off, k)[x] {
      FileBytesAt(d, n[i], off, k, x);
      FileBytesAt(d', n'[i], off, k, x);
      assert ByteKept(d, n[i], d', n'[i], off + x);
    }
  }

  lemma PieceRead(sb: Super, d: Image, n: map<nat, Inode>, owner: Owner, i: nat, off: nat, tot: nat, m: nat)
    requires Owned(sb, d, n, owner) && i in n && off + tot + m <= MAXBYTES && 0 < m <= BSIZE - (off + tot) % BSIZE
    requires HasBlock(d, n[i], (off + tot) / BSIZE)
    ensures var a, o := SlotAddr(d, n[i], DataSlot((off + tot) / BSIZE)), (off + tot) % BSIZE;
            a < |d| && FileBytes(d, n[i], off, tot + m) == FileBytes(d, n[i], off, tot) + d[a][o..o + m]
  {
    var pos := off + tot;
    var a, o := SlotAddr(d, n[i], DataSlot(pos / BSIZE)), pos % BSIZE;
    SlotInData(sb, d, n, owner, i, DataSlot(pos / BSIZE));
    var whole, parts := FileBytes(d, n[i], off, tot + m), FileBytes(d, n[i], off, tot) + d[a][o..o + m];
    forall k | 0 <= k < tot + m ensures whole[k] == parts[k] {
      FileBytesAt(d, n[i], off, tot + m, k);
      if k < tot {
        FileBytesAt(d, n[i], off, tot, k);
      } else {
        assert (off + k) / BSIZE == pos / BSIZE && (off + k) % BSIZE == o + (k - tot);
      }
    }
  }

  /** m bytes of a block. */
  function Stretch(d: Image, a: nat, o: nat, m: nat): (s: seq<Byte>)
    requires a < |d| && o + m <= BSIZE
    ensures |s| == m
  {
    d[a][o..o + m]
  }

  lemma ReadStep(sb: Super, d0: Image, n0: map<nat, Inode>, d: Image, n: map<nat, Inode>, owner: Owner, i: nat,
                 off: nat, tot: nat, m: nat)
    requires Owned(sb, d, n, owner) && i in n && Extends(d0, n0, d, n, i)
    requires off + tot + m <= MAXBYTES && 0 < m <= BSIZE - (off + tot) % BSIZE && HasBlock(d, n[i], (off + tot) / BSIZE)
    ensures var a, o := SlotAddr(d, n[i], DataSlot((off + tot) / BSIZE)), (off + tot) % BSIZE;
            a < |d| && FileBytes(d0, n0[i], off, tot + m) == FileBytes(d0, n0[i], off, tot) + Stretch(d, a, o, m)
  {
    PieceRead(sb, d, n, owner, i, off, tot, m);
    SameFileBytes(d0, n0, d, n, i, off, tot);
    SameFileBytes(d0, n0, d, n, i, off, tot + m);
  }

  lemma ReadMore(sb: Super, d0: Image, n0: map<nat, Inode>, d: Image, n: map<nat, Inode>, owner: Owner, i: nat,
                 off: nat, len: nat,
                 got: seq<Byte>, piece: seq<Byte>)
    requires Owned(sb, d, n, owner) && i in n && Extends(d0, n0, d, n, i) && |got| < len && off + len <= MAXBYTES
    requires got == FileBytes(d0, n0[i], off, |got|) && HasBlock(d, n[i], (off + |got|) / BSIZE)
    requires var a := SlotAddr(d, n[i], DataSlot((off + |got|) / BSIZE));
             a < |d| && piece == Stretch(d, a, (off + |got|) % BSIZE, Chunk(off, |got|, len))
    ensures |got| < |got + piece| <= len && got + piece == FileBytes(d0, n0[i], off, |got + piece|)
  {
    ReadStep(sb, d0, n0, d, n, owner, i, off, |got|, Chunk(off, |got|, len));
  }

  /** The next piece goes into a block that bmap has found or made. */
  lemma NextPiece(sb: Super, d0: Image, n0: map<nat, Inode>, d1: Image, n1: map<nat, Inode>, d2: Image,
                  n2: map<nat, Inode>,
                  owner: Owner, i: nat, off: nat, src: seq<Byte>, tot: nat, m: nat, a: nat, blk: Block)
    requires tot + m <= |src| && off + |src| <= MAXBYTES && (off + tot) % BSIZE + m <= BSIZE && off + tot < MAXBYTES
    requires Writes(d0, n0, d1, n1, i, off, src[..tot]) && Extends(d1, n1, d2, n2, i) && Owned(sb, d2, n2, owner)
    requires i in n2 && a == SlotAddr(d2, n2[i], DataSlot((off + tot) / BSIZE)) != 0 && a < |d2|
    requires blk == Overlay(d2[a], (off + tot) % BSIZE, src[tot..tot + m])
    ensures i in n1 && AddrKept(n1[i], n2[i], NDIRECT) && AddrKept(n1[i], n2[i], Top((off + tot) / BSIZE))
    ensures sb.datastart <= a && Owned(sb, d2[a := blk], n2, owner)
    ensures Writes(d0, n0, d2[a := blk], n2, i, off, src[..tot + m])
  {
    WritesExtends(d0, n0, d1, n1, d2, n2, i, off, src[..tot]);
    assert Kept(d1, n1[i], d2, n2[i]);
    assert SlotKept(d1, n1[i], d2, n2[i], NDIRECT) && SlotKept(d1, n1[i], d2, n2[i], Top((off + tot) / BSIZE));
    assert AddrsOwned(d2, n2[i], i, owner);
    WritesPiece(sb, d0, n0, d2, n2, owner, i, off, src[..tot], src[tot..tot + m]);
    assert src[..tot] + src[tot..tot + m] == src[..tot + m];
  }

  /** The indirect block of an inode, if it has one. */
  ghost function IndirectSet(ip: Inode): set<nat> {
    if ip.addrs[NDIRECT] != 0 then {ip.addrs[NDIRECT]} else {}
  }

  ghost predicate Full(sb: Super, d: Image) {
    |d| == sb.size && forall a :: 0 <= a < sb.size ==> Used(sb, d, a)
  }

  /** `min(n - tot, BSIZE - off % BSIZE)` */
  function Chunk(off: nat, tot: nat, n: nat): (m: nat)
    requires tot < n
    ensures 0 < m <= BSIZE - (off + tot) % BSIZE && tot + m <= n
    ensures tot + m == n || (off + tot + m) % BSIZE == 0
  {
    if n - tot < BSIZE - (off + tot) % BSIZE then n - tot else BSIZE - (off + tot) % BSIZE
  }

  lemma InBitmapBlock(sb: Super, d: Image, k: nat, bi: nat)
    requires |d| == sb.size && bi < BPB && k * BPB + bi < sb.size
    ensures sb.bmapstart + k * BPB / BPB == BitmapBlock(sb, k * BPB + bi) < sb.datastart
    ensures BlockBit(d[BitmapBlock(sb, k * BPB + bi)], bi) == Used(sb, d, k * BPB + bi)
  {
    assert (k * BPB + bi) % BPB == bi;
  }
}
