/** Giving back every block of an inode (itrunc of fs.c), on the values. */
module Truncate {
  import opened Bits
  import opened FsDisk
  import Counting

  /** Owners lost were blocks of inode i; outside the bitmap the image is as it was. */
  ghost predicate Freeing(sb: Super, d0: Image, owner0: Owner, d: Image, owner: Owner, i: nat) {
    && |d0| == |d| == sb.size
    && (forall a :: a in owner ==> a in owner0 && owner[a] == owner0[a])
    && (forall a :: a in owner0 && a !in owner ==> owner0[a].0 == i)
    && (forall b :: 0 <= b < sb.size && !(sb.bmapstart <= b < sb.datastart) ==> d[b] == d0[b])
  }

  ghost predicate Emptied(ip: Inode, k: nat) {
    forall l :: 0 <= l < k && l <= NDIRECT ==> ip.addrs[l] == 0
  }

  /** bfree of block a of inode i. */
  lemma FreeingStep(sb: Super, d0: Image, owner0: Owner, d: Image, owner: Owner, i: nat, a: nat)
    requires Freeing(sb, d0, owner0, d, owner, i) && a < sb.size && a in owner && owner[a].0 == i
    ensures Freeing(sb, d0, owner0, FlipUsed(sb, d, a), owner - {a}, i)
  {
    BitmapBlockInRange(sb, a);
  }

  lemma FreeDirectStep(sb: Super, d0: Image, owner0: Owner, d: Image, n: map<nat, Inode>, owner: Owner, i: nat, k: nat)
    requires Freeing(sb, d0, owner0, d, owner, i) && Owned(sb, d, n, owner) && i in n
    requires k < NDIRECT && n[i].addrs[k] != 0
    ensures var a := n[i].addrs[k];
            && a < sb.size && Used(sb, d, a) && a in owner
            && Owned(sb, FlipUsed(sb, d, a), SetDirect(n, i, k, 0), owner - {a})
            && Freeing(sb, d0, owner0, FlipUsed(sb, d, a), owner - {a}, i)
  {
    var a := n[i].addrs[k];
    SlotInData(sb, d, n, owner, i, k);
    FreeDirect(sb, d, n, owner, i, k);
    OwnedIsUsed(sb, d, n, owner, a);
    FreeingStep(sb, d0, owner0, d, owner, i, a);
  }

  // ------------------------------------------------------ the blocks that it logs

  /** The bitmap blocks of the blocks that have lost their owner. */
  ghost function FreedBits(sb: Super, owner0: Owner, owner: Owner): set<nat> {
    set a | a in owner0 && a !in owner :: BitmapBlock(sb, a)
  }

  /** The bitmap blocks of the blocks of inode i. */
  ghost function BitmapOf(sb: Super, owner: Owner, i: nat): set<nat> {
    set a | a in owner && owner[a].0 == i :: BitmapBlock(sb, a)
  }

  lemma FreedMore(sb: Super, owner0: Owner, owner: Owner, a: nat)
    requires a in owner0 && a in owner
    ensures FreedBits(sb, owner0, owner - {a}) == FreedBits(sb, owner0, owner) + {BitmapBlock(sb, a)}
  {
    var owner' := owner - {a};
    forall b | b in FreedBits(sb, owner0, owner) + {BitmapBlock(sb, a)} ensures b in FreedBits(sb, owner0, owner') {
      if b != BitmapBlock(sb, a) {
        var c :| c in owner0 && c !in owner && BitmapBlock(sb, c) == b;
        assert c !in owner';
      } else {
        assert a in owner0 && a !in owner';
      }
    }
  }

  /** When inode i has no block left, the blocks that lost their owner are all of its blocks. */
  lemma FreedAll(sb: Super, d0: Image, n0: map<nat, Inode>, owner0: Owner, d: Image, n: map<nat, Inode>, owner: Owner,
                 i: nat)
    requires Owned(sb, d0, n0, owner0) && Owned(sb, d, n, owner) && Freeing(sb, d0, owner0, d, owner, i)
    requires i in n && Emptied(n[i], NDIRECT + 1)
    ensures FreedBits(sb, owner0, owner) == BitmapOf(sb, owner0, i)
  {
    forall a | a in owner0 ensures a in owner <==> owner0[a].0 != i {
      if a in owner {
        assert Held(sb, d, n, owner, a);
      }
    }
  }

  /**
   The blocks that itrunc logs are one for the inode and one for each bitmap block with a bit
   of the file: at most MAXOPBLOCKS of them while the bitmap has fewer blocks than that.
   */
  lemma TruncFits(sb: Super, d: Image, n: map<nat, Inode>, owner: Owner, i: nat, bitmaps: nat)
    requires Owned(sb, d, n, owner) && i < sb.ninodes && sb.size <= bitmaps * BPB
    ensures |BitmapOf(sb, owner, i) + {InodeBlock(sb, i)}| == |BitmapOf(sb, owner, i)| + 1 <= bitmaps + 1
  {
    var all := Counting.Between(sb.bmapstart, sb.bmapstart + bitmaps);
    forall b | b in BitmapOf(sb, owner, i) ensures b in all && b != InodeBlock(sb, i) {
      var a :| a in owner && owner[a].0 == i && BitmapBlock(sb, a) == b;
      assert Held(sb, d, n, owner, a);
    }
    assert all == BitmapOf(sb, owner, i) + (all - BitmapOf(sb, owner, i));
  }

  // --------------------------------------------------------- the indirect block

  /** itrunc leaves the entries on the disk; `shadow` is the block with those it has freed cleared. */
  ghost predicate Shadow(shadow: Block, blk: Block, j: nat) {
    forall w :: 0 <= w < NINDIRECT ==> Word(shadow, w) == if w < j then 0 else Word(blk, w)
  }

  lemma ShadowStep(shadow: Block, blk: Block, j: nat) returns (shadow': Block)
    requires Shadow(shadow, blk, j) && j < NINDIRECT
    ensures shadow' == (if Word(blk, j) == 0 then shadow else SetWord(shadow, j, 0))
    ensures Shadow(shadow', blk, j + 1)
  {
    shadow' := if Word(blk, j) == 0 then shadow else SetWord(shadow, j, 0);
    forall w | 0 <= w < NINDIRECT ensures Word(shadow', w) == if w < j + 1 then 0 else Word(blk, w) {
      if Word(blk, j) != 0 {
        WordOfSetWord(shadow, j, 0, w);
      }
    }
  }

  lemma FreeEntryStep(sb: Super, d0: Image, owner0: Owner, d: Image, n: map<nat, Inode>, owner: Owner, i: nat, j: nat,
                      shadow: Block)
    requires Freeing(sb, d0, owner0, d, owner, i) && i in n && 0 < n[i].addrs[NDIRECT] < |d|
    requires Owned(sb, d[n[i].addrs[NDIRECT] := shadow], n, owner)
    requires j < NINDIRECT && Word(shadow, j) == Word(d[n[i].addrs[NDIRECT]], j) != 0
    ensures var ind, a := n[i].addrs[NDIRECT], Word(d[n[i].addrs[NDIRECT]], j);
            && sb.datastart <= ind && a < sb.size && Used(sb, d, a) && a in owner
            && Owned(sb, FlipUsed(sb, d, a)[ind := SetWord(shadow, j, 0)], n, owner - {a})
            && Freeing(sb, d0, owner0, FlipUsed(sb, d, a), owner - {a}, i)
  {
    var ind, a := n[i].addrs[NDIRECT], Word(shadow, j);
    var g := d[ind := shadow];
    SlotInData(sb, g, n, owner, i, NDIRECT);
    SlotInData(sb, g, n, owner, i, NDIRECT + 1 + j);
    FreeEntry(sb, g, n, owner, i, j);
    OwnedIsUsed(sb, g, n, owner, a);
    UsedFrame(sb, g, d, a);
    BitmapBlockInRange(sb, a);
    assert SetEntry(FlipUsed(sb, g, a), n[i], j, 0) == FlipUsed(sb, d, a)[ind := SetWord(shadow, j, 0)];
    FreeingStep(sb, d0, owner0, d, owner, i, a);
  }

  /** With every entry cleared, the indirect block itself goes. */
  lemma FreeIndirectStep(sb: Super, d0: Image, owner0: Owner, d: Image, n: map<nat, Inode>, owner: Owner, i: nat,
                         shadow: Block)
    requires Freeing(sb, d0, owner0, d, owner, i) && i in n && 0 < n[i].addrs[NDIRECT] < |d|
    requires Owned(sb, d[n[i].addrs[NDIRECT] := shadow], n, owner)
    requires Shadow(shadow, d[n[i].addrs[NDIRECT]], NINDIRECT)
    ensures var ind := n[i].addrs[NDIRECT];
            && ind < sb.size && Used(sb, d, ind) && ind in owner
            && Owned(sb, FlipUsed(sb, d, ind), SetDirect(n, i, NDIRECT, 0), owner - {ind})
            && Freeing(sb, d0, owner0, FlipUsed(sb, d, ind), owner - {ind}, i)
  {
    var ind := n[i].addrs[NDIRECT];
    var g := d[ind := shadow];
    SlotInData(sb, g, n, owner, i, NDIRECT);
    forall l | NDIRECT < l < NSLOT ensures SlotAddr(g, n[i], l) == 0 {
      assert Word(shadow, l - NDIRECT - 1) == 0;
    }
    FreeDirect(sb, g, n, owner, i, NDIRECT);
    OwnedIsUsed(sb, g, n, owner, ind);
    UsedFrame(sb, g, d, ind);
    BitmapBlockInRange(sb, ind);
    var e, n', owner' := FlipUsed(sb, g, ind), SetDirect(n, i, NDIRECT, 0), owner - {ind};
    WriteKeepsOwned(sb, e, n', owner', ind, d[ind]);
    assert e[ind := d[ind]] == FlipUsed(sb, d, ind);
    FreeingStep(sb, d0, owner0, d, owner, i, ind);
  }

  // ------------------------------------------------------------------ the result

  /** Exactly the blocks of inode i are free now, and every other file is as it was. */
  ghost predicate Released(sb: Super, d0: Image, n0: map<nat, Inode>, owner0: Owner, d: Image, n: map<nat, Inode>,
                           i: nat) {
    && |d0| == |d| == sb.size && n.Keys == n0.Keys
    && (forall a :: 0 <= a < sb.size ==> (Used(sb, d, a) <==> Used(sb, d0, a) && !(a in owner0 && owner0[a].0 == i)))
    && (forall j {:trigger Kept(d0, n0[j], d, n[j])} :: j in n0 && j != i ==> n[j] == n0[j] && Kept(d0, n0[j], d, n[j]))
  }

  lemma ReleasedAll(sb: Super, d0: Image, n0: map<nat, Inode>, owner0: Owner, d: Image, n: map<nat, Inode>,
                    owner: Owner, i: nat)
    requires Owned(sb, d0, n0, owner0) && Owned(sb, d, n, owner) && Freeing(sb, d0, owner0, d, owner, i)
    requires i in n0 && i in n && n.Keys == n0.Keys && Emptied(n[i], NDIRECT + 1)
    requires forall j :: j in n0 && j != i ==> n[j] == n0[j]
    ensures Released(sb, d0, n0, owner0, d, n, i)
  {
    forall a | 0 <= a < sb.size ensures Used(sb, d, a) <==> Used(sb, d0, a) && !(a in owner0 && owner0[a].0 == i) {
      assert Marked(sb, d, owner, a) && Marked(sb, d0, owner0, a);
      if a in owner {
        assert Held(sb, d, n, owner, a);
      }
      if a in owner0 {
        assert Held(sb, d0, n0, owner0, a);
      }
    }
    forall j | j in n0 && j != i ensures Kept(d0, n0[j], d, n[j]) {
      OthersUntouched(sb, d0, n0, owner0, d, j);
    }
  }

  lemma OthersUntouched(sb: Super, d0: Image, n0: map<nat, Inode>, owner0: Owner, d: Image, j: nat)
    requires Owned(sb, d0, n0, owner0) && j in n0 && |d| == sb.size
    requires forall b :: 0 <= b < sb.size && !(sb.bmapstart <= b < sb.datastart) ==> d[b] == d0[b]
    ensures Kept(d0, n0[j], d, n0[j])
  {
    var ip := n0[j];
    SlotInData(sb, d0, n0, owner0, j, NDIRECT);
    forall k | 0 <= k < NSLOT ensures SlotKept(d0, ip, d, ip, k) {
      SlotFrame(d0, d, ip, k);
    }
    forall pos | 0 <= pos < MAXFILE * BSIZE ensures ByteKept(d0, ip, d, ip, pos) {
      SlotInData(sb, d0, n0, owner0, j, DataSlot(pos / BSIZE));
      SlotFrame(d0, d, ip, DataSlot(pos / BSIZE));
    }
  }
}
