/** What writing a stretch of a file does to every file on the image. */
module FileData {
  import opened Common
  import opened Bits
  import opened FsDisk

  /** memmove of `piece` into a block at offset o. */
  function Overlay(blk: Block, o: nat, piece: seq<Byte>): (r: Block)
    requires o + |piece| <= BSIZE
    ensures forall k :: 0 <= k < BSIZE ==> r[k] == if o <= k < o + |piece| then piece[k - o] else blk[k]
  {
    blk[..o] + piece + blk[o + |piece|..]
  }

  ghost predicate WroteByte(d: Image, ip: Inode, d': Image, ip': Inode, off: nat, data: seq<Byte>, pos: nat)
    requires pos < MAXFILE * BSIZE
  {
    ByteAt(d', ip', pos) == if off <= pos < off + |data| then data[pos - off] else ByteAt(d, ip, pos)
  }

  /** The file holds `data` at `off` and is otherwise as it was, with the blocks it had. */
  ghost predicate Wrote(d: Image, ip: Inode, d': Image, ip': Inode, off: nat, data: seq<Byte>) {
    && (forall pos :: 0 <= pos < MAXFILE * BSIZE ==> WroteByte(d, ip, d', ip', off, data, pos))
    && SlotsKept(d, ip, d', ip')
  }

  /** Every file but i is kept. */
  ghost predicate OthersKept(d: Image, n: map<nat, Inode>, d': Image, n': map<nat, Inode>, i: nat) {
    && n'.Keys == n.Keys
    && (forall j {:trigger Kept(d, n[j], d', n'[j])} :: j in n && j != i ==> n'[j] == n[j] && Kept(d, n[j], d', n'[j]))
  }

  /** Block bn holds a byte of the stretch off..end. */
  predicate InStretch(bn: nat, off: nat, end: nat) {
    off < end && off / BSIZE <= bn && bn * BSIZE < end
  }

  /** Every block that holds a byte of off..end exists. */
  ghost predicate Covered(d: Image, ip: Inode, off: nat, end: nat) {
    forall bn :: 0 <= bn < MAXFILE && InStretch(bn, off, end) ==> HasBlock(d, ip, bn)
  }

  ghost predicate Writes(d: Image, n: map<nat, Inode>, d': Image, n': map<nat, Inode>, i: nat, off: nat,
                         data: seq<Byte>) {
    && i in n && OthersKept(d, n, d', n', i)
    && n'[i].size == n[i].size && Wrote(d, n[i], d', n'[i], off, data)
    && Covered(d', n'[i], off, off + |data|)
  }

  lemma WritesNothing(sb: Super, d: Image, n: map<nat, Inode>, owner: Owner, i: nat, off: nat)
    requires Owned(sb, d, n, owner) && i in n
    ensures Writes(d, n, d, n, i, off, [])
  {
    ExtendsRefl(sb, d, n, owner, i);
    assert Kept(d, n[i], d, n[i]);
    forall pos | 0 <= pos < MAXFILE * BSIZE ensures WroteByte(d, n[i], d, n[i], off, [], pos) {}
  }

  /** Allocating a block of file i after a write leaves the write standing. */
  lemma WritesExtends(d: Image, n: map<nat, Inode>, d1: Image, n1: map<nat, Inode>, d2: Image, n2: map<nat, Inode>,
                      i: nat, off: nat, data: seq<Byte>)
    requires Writes(d, n, d1, n1, i, off, data) && Extends(d1, n1, d2, n2, i)
    ensures Writes(d, n, d2, n2, i, off, data)
  {
    forall j | j in n && j != i ensures n2[j] == n[j] && Kept(d, n[j], d2, n2[j]) {
      assert Kept(d, n[j], d1, n1[j]) && Kept(d1, n1[j], d2, n2[j]);
      KeptTrans(d, n[j], d1, n1[j], d2, n2[j]);
    }
    WroteExtends(d, n[i], d1, n1[i], d2, n2[i], off, data);
  }

  lemma WroteExtends(d: Image, ip: Inode, d1: Image, ip1: Inode, d2: Image, ip2: Inode, off: nat, data: seq<Byte>)
    requires Wrote(d, ip, d1, ip1, off, data) && Kept(d1, ip1, d2, ip2) && Covered(d1, ip1, off, off + |data|)
    ensures Wrote(d, ip, d2, ip2, off, data) && Covered(d2, ip2, off, off + |data|)
  {
    StillWrote(d, ip, d1, ip1, d2, ip2, off, data);
    forall bn | 0 <= bn < MAXFILE && InStretch(bn, off, off + |data|) ensures HasBlock(d2, ip2, bn) {
      assert HasBlock(d1, ip1, bn) && SlotKept(d1, ip1, d2, ip2, DataSlot(bn));
    }
  }

  lemma StillWrote(d: Image, ip: Inode, d1: Image, ip1: Inode, d2: Image, ip2: Inode, off: nat, data: seq<Byte>)
    requires Wrote(d, ip, d1, ip1, off, data) && Kept(d1, ip1, d2, ip2)
    ensures Wrote(d, ip, d2, ip2, off, data)
  {
    forall pos | 0 <= pos < MAXFILE * BSIZE ensures WroteByte(d, ip, d2, ip2, off, data, pos) {
      assert WroteByte(d, ip, d1, ip1, off, data, pos) && ByteKept(d1, ip1, d2, ip2, pos);
    }
    forall k | 0 <= k < NSLOT ensures SlotKept(d, ip, d2, ip2, k) {
      assert SlotKept(d, ip, d1, ip1, k) && SlotKept(d1, ip1, d2, ip2, k);
    }
  }

  /** What one block write changes, for every file at once. */
  lemma BlockWritten(sb: Super, d: Image, n: map<nat, Inode>, owner: Owner, i: nat, bn: nat, blk: Block, j: nat)
    requires Owned(sb, d, n, owner) && i in n && AddrsOwned(d, n[i], i, owner) && bn < MAXFILE
    requires SlotAddr(d, n[i], DataSlot(bn)) != 0 && j in n
    ensures var a := SlotAddr(d, n[i], DataSlot(bn));
            && a < |d| && SlotsKept(d, n[j], d[a := blk], n[j])
            && (j != i ==> Kept(d, n[j], d[a := blk], n[j]))
  {
    var a := SlotAddr(d, n[i], DataSlot(bn));
    SlotInData(sb, d, n, owner, i, DataSlot(bn));
    SlotInData(sb, d, n, owner, j, NDIRECT);
    var d' := d[a := blk];
    forall k | 0 <= k < NSLOT ensures SlotKept(d, n[j], d', n[j], k) {
      SlotFrame(d, d', n[j], k);
    }
    if j != i {
      forall pos | 0 <= pos < MAXFILE * BSIZE ensures ByteKept(d, n[j], d', n[j], pos) {
        WriteChangesBytes(sb, d, n, owner, i, bn, blk, j, pos);
      }
    }
  }

  /** Writing the next piece into its block. */
  lemma WritesPiece(sb: Super, d: Image, n: map<nat, Inode>, d1: Image, n1: map<nat, Inode>, owner: Owner, i: nat,
                    off: nat, data: seq<Byte>, piece: seq<Byte>)
    requires Writes(d, n, d1, n1, i, off, data) && Owned(sb, d1, n1, owner) && AddrsOwned(d1, n1[i], i, owner)
    requires off + |data| < MAXFILE * BSIZE && (off + |data|) % BSIZE + |piece| <= BSIZE
    requires SlotAddr(d1, n1[i], DataSlot((off + |data|) / BSIZE)) != 0
    ensures var a := SlotAddr(d1, n1[i], DataSlot((off + |data|) / BSIZE));
            && sb.datastart <= a < |d1|
            && var d2 := d1[a := Overlay(d1[a], (off + |data|) % BSIZE, piece)];
               Owned(sb, d2, n1, owner) && Writes(d, n, d2, n1, i, off, data + piece)
  {
    var pos, bn := off + |data|, (off + |data|) / BSIZE;
    var a := SlotAddr(d1, n1[i], DataSlot(bn));
    SlotInData(sb, d1, n1, owner, i, DataSlot(bn));
    var blk := Overlay(d1[a], pos % BSIZE, piece);
    var d2 := d1[a := blk];
    WriteKeepsOwned(sb, d1, n1, owner, a, blk);
    forall j | j in n && j != i ensures n1[j] == n[j] && Kept(d, n[j], d2, n1[j]) {
      BlockWritten(sb, d1, n1, owner, i, bn, blk, j);
      assert Kept(d, n[j], d1, n1[j]);
      KeptTrans(d, n[j], d1, n1[j], d2, n1[j]);
    }
    BlockWritten(sb, d1, n1, owner, i, bn, blk, i);
    WrotePiece(sb, d, n[i], d1, n1, owner, i, off, data, piece);
    CoveredPiece(d1, d2, n1[i], off, off + |data|, |piece|);
  }

  lemma WrotePiece(sb: Super, d: Image, ip: Inode, d1: Image, n1: map<nat, Inode>, owner: Owner, i: nat, off: nat,
                   data: seq<Byte>, piece: seq<Byte>)
    requires Owned(sb, d1, n1, owner) && i in n1 && AddrsOwned(d1, n1[i], i, owner)
    requires Wrote(d, ip, d1, n1[i], off, data)
    requires off + |data| < MAXFILE * BSIZE && (off + |data|) % BSIZE + |piece| <= BSIZE
    requires SlotAddr(d1, n1[i], DataSlot((off + |data|) / BSIZE)) != 0
    ensures var a := SlotAddr(d1, n1[i], DataSlot((off + |data|) / BSIZE));
            && a < |d1|
            && Wrote(d, ip, d1[a := Overlay(d1[a], (off + |data|) % BSIZE, piece)], n1[i], off, data + piece)
  {
    var p, bn := off + |data|, (off + |data|) / BSIZE;
    var a := SlotAddr(d1, n1[i], DataSlot(bn));
    SlotInData(sb, d1, n1, owner, i, DataSlot(bn));
    var blk := Overlay(d1[a], p % BSIZE, piece);
    var d2 := d1[a := blk];
    BlockWritten(sb, d1, n1, owner, i, bn, blk, i);
    forall pos | 0 <= pos < MAXFILE * BSIZE ensures WroteByte(d, ip, d2, n1[i], off, data + piece, pos) {
      assert WroteByte(d, ip, d1, n1[i], off, data, pos);
      WriteChangesBytes(sb, d1, n1, owner, i, bn, blk, i, pos);
    }
    forall k | 0 <= k < NSLOT ensures SlotKept(d, ip, d2, n1[i], k) {
      assert SlotKept(d, ip, d1, n1[i], k) && SlotKept(d1, n1[i], d2, n1[i], k);
    }
  }

  lemma CoveredPiece(d1: Image, d2: Image, ip: Inode, off: nat, end: nat, m: nat)
    requires off <= end && Covered(d1, ip, off, end) && |d2| == |d1| && end < MAXFILE * BSIZE
    requires end % BSIZE + m <= BSIZE
    requires HasBlock(d1, ip, end / BSIZE)
    requires SlotsKept(d1, ip, d2, ip)
    ensures Covered(d2, ip, off, end + m)
  {
    forall bn | 0 <= bn < MAXFILE && InStretch(bn, off, end + m) ensures HasBlock(d2, ip, bn) {
      assert InStretch(bn, off, end) || bn == end / BSIZE;
      assert HasBlock(d1, ip, bn);
      assert SlotKept(d1, ip, d2, ip, DataSlot(bn));
    }
  }

  // ----------------------------------------------------------------- file size

  function Resized(n: map<nat, Inode>, i: nat, size: nat): map<nat, Inode>
    requires i in n
  {
    n[i := n[i].(size := size)]
  }

  lemma ResizedOwned(sb: Super, d: Image, n: map<nat, Inode>, owner: Owner, i: nat, size: nat)
    requires Owned(sb, d, n, owner) && i in n
    ensures Owned(sb, d, Resized(n, i, size), owner)
  {
    var n' := Resized(n, i, size);
    forall j | j in n' ensures AddrsOwned(d, n'[j], j, owner) {
      assert AddrsOwned(d, n[j], j, owner);
      forall k | 0 <= k < NSLOT ensures SlotOwned(d, n'[j], j, k, owner) {
        assert SlotOwned(d, n[j], j, k, owner);
        assert SlotAddr(d, n'[j], k) == SlotAddr(d, n[j], k);
      }
    }
    forall a | a in owner ensures Held(sb, d, n', owner, a) {
      assert Held(sb, d, n, owner, a);
      assert SlotAddr(d, n'[owner[a].0], owner[a].1) == SlotAddr(d, n[owner[a].0], owner[a].1);
    }
  }

  lemma ResizedWrote(d: Image, ip: Inode, d': Image, ip': Inode, off: nat, data: seq<Byte>, size: nat)
    requires Wrote(d, ip, d', ip', off, data)
    ensures Wrote(d, ip, d', ip'.(size := size), off, data)
  {
    var jp := ip'.(size := size);
    forall pos | 0 <= pos < MAXFILE * BSIZE ensures WroteByte(d, ip, d', jp, off, data, pos) {
      assert WroteByte(d, ip, d', ip', off, data, pos);
      assert SlotAddr(d', jp, DataSlot(pos / BSIZE)) == SlotAddr(d', ip', DataSlot(pos / BSIZE));
    }
    forall k | 0 <= k < NSLOT ensures SlotKept(d, ip, d', jp, k) {
      assert SlotKept(d, ip, d', ip', k);
      assert SlotAddr(d', jp, k) == SlotAddr(d', ip', k);
    }
  }

  /** After a write the size may grow to its end without leaving a hole. */
  lemma WrittenFull(d: Image, n: map<nat, Inode>, d': Image, n': map<nat, Inode>, i: nat, off: nat, data: seq<Byte>,
                    size: nat)
    requires Writes(d, n, d', n', i, off, data) && AllFull(d, n) && size <= MAXFILE * BSIZE
    requires size <= n[i].size || (size == off + |data| && off <= n[i].size)
    ensures AllFull(d', Resized(n', i, size))
  {
    var m := Resized(n', i, size);
    forall j | j in m ensures NoHoles(d', m[j]) {
      assert NoHoles(d, n[j]);
      if j != i {
        assert Kept(d, n[j], d', n'[j]);
        KeptNoHoles(d, n[j], d', n'[j]);
      } else {
        forall bn | 0 <= bn < MAXFILE && bn * BSIZE < size ensures HasBlock(d', m[i], bn) {
          if bn * BSIZE < n[i].size {
            assert HasBlock(d, n[i], bn) && SlotKept(d, n[i], d', n'[i], DataSlot(bn));
          } else {
            assert InStretch(bn, off, off + |data|);
            assert HasBlock(d', n'[i], bn);
          }
          assert SlotAddr(d', m[i], DataSlot(bn)) == SlotAddr(d', n'[i], DataSlot(bn));
        }
      }
    }
  }

  lemma ResizedOthers(d: Image, n: map<nat, Inode>, d': Image, n': map<nat, Inode>, i: nat, size: nat)
    requires OthersKept(d, n, d', n', i) && i in n
    ensures OthersKept(d, n, d', Resized(n', i, size), i)
  {
    var m := Resized(n', i, size);
    forall j | j in n && j != i ensures m[j] == n[j] && Kept(d, n[j], d', m[j]) {
      assert Kept(d, n[j], d', n'[j]);
    }
  }

  lemma OneInodeChanged(d: Image, n: map<nat, Inode>, d': Image, n': map<nat, Inode>, i: nat)
    requires OthersKept(d, n, d', n', i) && i in n
    ensures n' == n[i := n'[i]]
  {
    forall j | j in n && j != i ensures n'[j] == n[j] {
      assert Kept(d, n[j], d', n'[j]);
    }
  }

  // ----------------------------------------------------------- one write after another

  lemma WroteThenWrote(d: Image, ip: Inode, d1: Image, ip1: Inode, d2: Image, ip2: Inode, off: nat, data: seq<Byte>,
                       more: seq<Byte>)
    requires Wrote(d, ip, d1, ip1, off, data) && Wrote(d1, ip1, d2, ip2, off + |data|, more)
    ensures Wrote(d, ip, d2, ip2, off, data + more)
  {
    forall pos | 0 <= pos < MAXFILE * BSIZE ensures WroteByte(d, ip, d2, ip2, off, data + more, pos) {
      assert WroteByte(d, ip, d1, ip1, off, data, pos) && WroteByte(d1, ip1, d2, ip2, off + |data|, more, pos);
    }
    forall k | 0 <= k < NSLOT ensures SlotKept(d, ip, d2, ip2, k) {
      assert SlotKept(d, ip, d1, ip1, k) && SlotKept(d1, ip1, d2, ip2, k);
    }
  }

  lemma OthersKeptTrans(d: Image, n: map<nat, Inode>, d1: Image, n1: map<nat, Inode>, d2: Image, n2: map<nat, Inode>,
                        i: nat)
    requires OthersKept(d, n, d1, n1, i) && OthersKept(d1, n1, d2, n2, i)
    ensures OthersKept(d, n, d2, n2, i)
  {
    forall j | j in n && j != i ensures n2[j] == n[j] && Kept(d, n[j], d2, n2[j]) {
      assert Kept(d, n[j], d1, n1[j]) && Kept(d1, n1[j], d2, n2[j]);
      KeptTrans(d, n[j], d1, n1[j], d2, n2[j]);
    }
  }
}
