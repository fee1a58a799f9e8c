/**
 The file system image (fs.h): free bitmap, inodes with direct and indirect blocks, and
 who owns each block.
 */
module FsDisk {
  import opened Common
  import opened Bits

  const BPB := 4096          // bitmap bits per block
  const IPB := 8             // inodes per block
  const NDIRECT := 12
  const MAXFILE := NDIRECT + NINDIRECT
  const NSLOT := MAXFILE + 1 // 12 direct blocks, the indirect block, 128 blocks it lists

  /** mkfs: boot block, superblock and log come before the inodes; data blocks come last. */
  datatype RawSuper = Super(size: nat, ninodes: nat, inodestart: nat, bmapstart: nat, datastart: nat) {
    predicate Valid() {
      && 0 < inodestart && inodestart + ninodes / IPB < bmapstart
      && bmapstart + size / BPB < datastart <= size < UINT
    }
  }

  /** Layout of the image that mkfs makes. */
  type Super = sb: RawSuper | sb.Valid() witness Super(1000, 200, 32, 58, 59)

  type Image = seq<Block>

  /** Two halves of 16 bits. */
  type Word32 = w: nat | w < UINT

  /**
   An inode that is not a device: type and major number, minor number and links, size, 12
   direct addresses and that of the indirect block.
   */
  datatype RawInode = Inode(kind: Word32, links: Word32, size: nat, addrs: seq<nat>)

  type Inode = ip: RawInode | |ip.addrs| == NDIRECT + 1 witness Inode(1, 1, 0, seq(NDIRECT + 1, _ => 0))

  /** BBLOCK and IBLOCK of fs.h. */
  function BitmapBlock(sb: Super, a: nat): nat {
    sb.bmapstart + a / BPB
  }

  function InodeBlock(sb: Super, inum: nat): nat {
    sb.inodestart + inum / IPB
  }

  // ------------------------------------------------------------------ bitmap

  predicate Used(sb: Super, d: Image, a: nat)
    requires |d| == sb.size && a < sb.size
  {
    BlockBit(d[BitmapBlock(sb, a)], a % BPB)
  }

  lemma BitmapBlockInRange(sb: Super, a: nat)
    requires a < sb.size
    ensures sb.bmapstart <= BitmapBlock(sb, a) < sb.datastart
  {
  }

  /** Inverting the bit of block a. */
  function FlipUsed(sb: Super, d: Image, a: nat): (d': Image)
    requires |d| == sb.size && a < sb.size
    ensures |d'| == |d|
  {
    d[BitmapBlock(sb, a) := FlipBlock(d[BitmapBlock(sb, a)], a % BPB)]
  }

  /** The bit of block a: bit a % 8 of byte a % 4096 / 8 of bitmap block a / 4096. */
  lemma UsedPlace(sb: Super, d: Image, a: nat)
    requires |d| == sb.size && a < sb.size
    ensures Mask(a % 8) > 0 && sb.bmapstart + a / 4096 < |d|
    ensures Used(sb, d, a) <==> d[sb.bmapstart + a / 4096][a % 4096 / 8] / Mask(a % 8) % 2 == 1
  {
    BitmapBlockInRange(sb, a);
    LowBits(a);
    BitIsDigit(d[BitmapBlock(sb, a)][a % BPB / 8], a % BPB % 8);
  }

  lemma LowBits(a: nat)
    ensures a % 4096 % 8 == a % 8
  {
    var q, r := a / 4096, a % 4096;
    var t, u := r / 8, r % 8;
    assert a == 8 * (512 * q + t) + u;
  }

  lemma FlipUsedBit(sb: Super, d: Image, a: nat, b: nat)
    requires |d| == sb.size && a < sb.size && b < sb.size
    ensures Used(sb, FlipUsed(sb, d, a), b) <==> (if b == a then !Used(sb, d, a) else Used(sb, d, b))
  {
    if BitmapBlock(sb, a) == BitmapBlock(sb, b) {
      FlipBlockBit(d[BitmapBlock(sb, a)], a % BPB, b % BPB);
      assert a == a / BPB * BPB + a % BPB && b == b / BPB * BPB + b % BPB;
    }
  }

  /** Bits depend on bitmap blocks only. */
  lemma UsedFrame(sb: Super, d: Image, d': Image, a: nat)
    requires |d| == |d'| == sb.size && a < sb.size
    requires forall b :: sb.bmapstart <= b < sb.datastart ==> d'[b] == d[b]
    ensures Used(sb, d', a) == Used(sb, d, a)
  {
  }

  // ------------------------------------------------------------- inode blocks

  /** Slot of the bn-th block of a file. */
  function DataSlot(bn: nat): nat
    requires bn < MAXFILE
  {
    if bn < NDIRECT then bn else bn + 1
  }

  /** The address held in a slot, 0 when there is no block. */
  function SlotAddr(d: Image, ip: Inode, k: nat): nat
    requires k < NSLOT
  {
    if k <= NDIRECT then ip.addrs[k]
    else if 0 < ip.addrs[NDIRECT] < |d| then Word(d[ip.addrs[NDIRECT]], k - NDIRECT - 1)
    else 0
  }

  type Owner = map<nat, (nat, nat)>   // block address to inode number and slot

  ghost predicate SlotOwned(d: Image, ip: Inode, inum: nat, k: nat, owner: Owner)
    requires k < NSLOT
  {
    SlotAddr(d, ip, k) != 0 ==> SlotAddr(d, ip, k) in owner && owner[SlotAddr(d, ip, k)] == (inum, k)
  }

  ghost predicate AddrsOwned(d: Image, ip: Inode, inum: nat, owner: Owner) {
    && ip.addrs[NDIRECT] < |d|
    && forall k :: 0 <= k < NSLOT ==> SlotOwned(d, ip, inum, k, owner)
  }

  /** An owned block is a data block and is held in the slot that owns it. */
  ghost predicate Held(sb: Super, d: Image, inodes: map<nat, Inode>, owner: Owner, a: nat)
    requires a in owner
  {
    var (inum, k) := owner[a];
    && sb.datastart <= a < sb.size && inum in inodes && k < NSLOT
    && SlotAddr(d, inodes[inum], k) == a
  }

  /** A data block is marked in the bitmap exactly when some slot owns it; metadata is always marked. */
  ghost predicate Marked(sb: Super, d: Image, owner: Owner, a: nat)
    requires |d| == sb.size && a < sb.size
  {
    Used(sb, d, a) <==> a < sb.datastart || a in owner
  }

  /**
   Every block in use belongs to exactly one slot of one inode, and the bitmap says so.
   */
  ghost predicate Owned(sb: Super, d: Image, inodes: map<nat, Inode>, owner: Owner) {
    && |d| == sb.size
    && (forall i {:trigger AddrsOwned(d, inodes[i], i, owner)} :: i in inodes ==> AddrsOwned(d, inodes[i], i, owner))
    && (forall a {:trigger Held(sb, d, inodes, owner, a)} :: a in owner ==> Held(sb, d, inodes, owner, a))
    && (forall a :: 0 <= a < sb.size ==> Marked(sb, d, owner, a))
  }

  /** Two slots never share a block. */
  lemma OneOwner(sb: Super, d: Image, inodes: map<nat, Inode>, owner: Owner, i: nat, k: nat, j: nat, l: nat)
    requires Owned(sb, d, inodes, owner) && i in inodes && j in inodes && k < NSLOT && l < NSLOT
    requires AddrsOwned(d, inodes[i], i, owner) && AddrsOwned(d, inodes[j], j, owner)
    requires SlotAddr(d, inodes[i], k) == SlotAddr(d, inodes[j], l) != 0
    ensures i == j && k == l
  {
    assert SlotOwned(d, inodes[i], i, k, owner) && SlotOwned(d, inodes[j], j, l, owner);
  }

  // --------------------------------------------------------------- allocation

  /** `balloc` of block a: marked in the bitmap and zeroed. */
  function Allocated(sb: Super, d: Image, a: nat): (d': Image)
    requires |d| == sb.size && a < sb.size
    ensures |d'| == |d|
  {
    FlipUsed(sb, d, a)[a := Zeroes()]
  }

  /** A free block is a data block that nobody owns. */
  lemma FreeIsUnowned(sb: Super, d: Image, inodes: map<nat, Inode>, owner: Owner, a: nat)
    requires Owned(sb, d, inodes, owner) && a < sb.size && !Used(sb, d, a)
    ensures sb.datastart <= a && a !in owner
  {
    assert Marked(sb, d, owner, a);
  }

  /** An address found in a slot is that of a data block, and no free block's. */
  lemma SlotInData(sb: Super, d: Image, inodes: map<nat, Inode>, owner: Owner, i: nat, k: nat)
    requires Owned(sb, d, inodes, owner) && i in inodes && k < NSLOT
    ensures AddrsOwned(d, inodes[i], i, owner)
    ensures var a := SlotAddr(d, inodes[i], k);
            a == 0 || (sb.datastart <= a < sb.size && a in owner && owner[a] == (i, k))
  {
    assert AddrsOwned(d, inodes[i], i, owner);
    assert SlotOwned(d, inodes[i], i, k, owner);
    var a := SlotAddr(d, inodes[i], k);
    if a != 0 {
      assert Held(sb, d, inodes, owner, a);
    }
  }

  /** Slots of an inode depend on its indirect block only. */
  lemma SlotFrame(d: Image, d': Image, ip: Inode, k: nat)
    requires k < NSLOT && ip.addrs[NDIRECT] < |d| == |d'|
    requires ip.addrs[NDIRECT] == 0 || d'[ip.addrs[NDIRECT]] == d[ip.addrs[NDIRECT]]
    ensures SlotAddr(d', ip, k) == SlotAddr(d, ip, k)
  {
  }

  /** Bits after an allocation. */
  lemma AllocatedBit(sb: Super, d: Image, a: nat, b: nat)
    requires |d| == sb.size && sb.datastart <= a < sb.size && b < sb.size && !Used(sb, d, a)
    ensures Used(sb, Allocated(sb, d, a), b) <==> b == a || Used(sb, d, b)
  {
    FlipUsedBit(sb, d, a, b);
    BitmapBlockInRange(sb, b);
  }

  lemma BitsAfterAlloc(sb: Super, d: Image, a: nat)
    requires |d| == sb.size && a < sb.size && !Used(sb, d, a)
    ensures sb.datastart <= a ==>
      forall b :: 0 <= b < sb.size ==> (Used(sb, Allocated(sb, d, a), b) <==> b == a || Used(sb, d, b))
  {
    if sb.datastart <= a {
      forall b | 0 <= b < sb.size ensures Used(sb, Allocated(sb, d, a), b) <==> b == a || Used(sb, d, b) {
        AllocatedBit(sb, d, a, b);
      }
    }
  }

  /** The indirect block of no inode is touched by an allocation. */
  lemma AllocatedKeepsIndirect(sb: Super, d: Image, inodes: map<nat, Inode>, owner: Owner, a: nat, i: nat)
    requires Owned(sb, d, inodes, owner) && a < sb.size && !Used(sb, d, a) && i in inodes
    ensures AddrsOwned(d, inodes[i], i, owner)
    ensures var ind := inodes[i].addrs[NDIRECT];
            ind == 0 || (ind != a && Allocated(sb, d, a)[ind] == d[ind])
  {
    FreeIsUnowned(sb, d, inodes, owner, a);
    SlotInData(sb, d, inodes, owner, i, NDIRECT);
    BitmapBlockInRange(sb, a);
  }

  /** The inode table with slot k <= 12 of inode i set. */
  function SetDirect(inodes: map<nat, Inode>, i: nat, k: nat, a: nat): map<nat, Inode>
    requires i in inodes && k < |inodes[i].addrs|
  {
    inodes[i := inodes[i].(addrs := inodes[i].addrs[k := a])]
  }

  /** The slots after balloc fills a direct slot or the indirect slot. */
  lemma AllocDirectSlots(sb: Super, d: Image, inodes: map<nat, Inode>, owner: Owner, a: nat, i: nat, k: nat, j: nat,
                         l: nat)
    requires Owned(sb, d, inodes, owner) && a < sb.size && !Used(sb, d, a)
    requires i in inodes && AddrsOwned(d, inodes[i], i, owner) && k <= NDIRECT && inodes[i].addrs[k] == 0
    requires j in inodes && AddrsOwned(d, inodes[j], j, owner) && l < NSLOT
    ensures var inodes' := SetDirect(inodes, i, k, a);
            && inodes'[j].addrs[NDIRECT] < |d|
            && SlotAddr(Allocated(sb, d, a), inodes'[j], l) ==
               if j == i && l == k then a else SlotAddr(d, inodes[j], l)
  {
    AllocatedKeepsIndirect(sb, d, inodes, owner, a, j);
    if l > NDIRECT && j == i && k == NDIRECT {
      WordOfZeroes(l - NDIRECT - 1);
    }
  }

  lemma AllocDirect(sb: Super, d: Image, inodes: map<nat, Inode>, owner: Owner, a: nat, i: nat, k: nat)
    requires Owned(sb, d, inodes, owner) && a < sb.size && !Used(sb, d, a)
    requires i in inodes && AddrsOwned(d, inodes[i], i, owner) && k <= NDIRECT && inodes[i].addrs[k] == 0
    ensures Owned(sb, Allocated(sb, d, a), SetDirect(inodes, i, k, a), owner[a := (i, k)])
  {
    FreeIsUnowned(sb, d, inodes, owner, a);
    var d', inodes', owner' := Allocated(sb, d, a), SetDirect(inodes, i, k, a), owner[a := (i, k)];
    forall j | j in inodes' ensures AddrsOwned(d', inodes'[j], j, owner') {
      assert AddrsOwned(d, inodes[j], j, owner);
      AllocDirectSlots(sb, d, inodes, owner, a, i, k, j, 0);
      forall l | 0 <= l < NSLOT ensures SlotOwned(d', inodes'[j], j, l, owner') {
        assert SlotOwned(d, inodes[j], j, l, owner);
        AllocDirectSlots(sb, d, inodes, owner, a, i, k, j, l);
        SlotInData(sb, d, inodes, owner, j, l);
      }
    }
    forall b | b in owner' ensures Held(sb, d', inodes', owner', b) {
      if b == a {
        AllocDirectSlots(sb, d, inodes, owner, a, i, k, i, k);
      } else {
        assert Held(sb, d, inodes, owner, b);
        var (j, l) := owner[b];
        AllocDirectSlots(sb, d, inodes, owner, a, i, k, j, l);
      }
    }
    forall b | 0 <= b < sb.size ensures Marked(sb, d', owner', b) {
      assert Marked(sb, d, owner, b);
      AllocatedBit(sb, d, a, b);
    }
  }

  /** Entry w of the indirect block of inode i set. */
  function SetEntry(d: Image, ip: Inode, w: nat, a: nat): (d': Image)
    requires ip.addrs[NDIRECT] < |d| && w < NINDIRECT && a < UINT
    ensures |d'| == |d|
  {
    var ind := ip.addrs[NDIRECT];
    d[ind := SetWord(d[ind], w, a)]
  }

  /** Setting an entry changes that slot and no other slot of any inode. */
  lemma SetEntrySlots(sb: Super, d: Image, inodes: map<nat, Inode>, owner: Owner, i: nat, w: nat, a: nat, j: nat,
                      l: nat)
    requires Owned(sb, d, inodes, owner) && i in inodes && AddrsOwned(d, inodes[i], i, owner)
    requires inodes[i].addrs[NDIRECT] != 0 && w < NINDIRECT && a < UINT
    requires j in inodes && AddrsOwned(d, inodes[j], j, owner) && l < NSLOT
    ensures SlotAddr(SetEntry(d, inodes[i], w, a), inodes[j], l) ==
            if j == i && l == NDIRECT + 1 + w then a else SlotAddr(d, inodes[j], l)
  {
    if j != i && inodes[j].addrs[NDIRECT] == inodes[i].addrs[NDIRECT] {
      OneOwner(sb, d, inodes, owner, i, NDIRECT, j, NDIRECT);
    }
    if j == i && l > NDIRECT {
      WordOfSetWord(d[inodes[i].addrs[NDIRECT]], w, a, l - NDIRECT - 1);
    }
  }

  /** The image after balloc fills entry w of the indirect block. */
  function EntryAllocated(sb: Super, d: Image, ip: Inode, w: nat, a: nat): (d': Image)
    requires |d| == sb.size && ip.addrs[NDIRECT] < sb.size && w < NINDIRECT && a < sb.size
    ensures |d'| == |d|
  {
    SetEntry(Allocated(sb, d, a), ip, w, a)
  }

  lemma AllocEntrySlots(sb: Super, d: Image, inodes: map<nat, Inode>, owner: Owner, a: nat, i: nat, w: nat, j: nat,
                        l: nat)
    requires Owned(sb, d, inodes, owner) && a < sb.size && !Used(sb, d, a)
    requires i in inodes && AddrsOwned(d, inodes[i], i, owner) && inodes[i].addrs[NDIRECT] != 0 && w < NINDIRECT
    requires j in inodes && AddrsOwned(d, inodes[j], j, owner) && l < NSLOT
    ensures SlotAddr(EntryAllocated(sb, d, inodes[i], w, a), inodes[j], l) ==
            if j == i && l == NDIRECT + 1 + w then a else SlotAddr(d, inodes[j], l)
  {
    AllocatedKeepsIndirect(sb, d, inodes, owner, a, i);
    AllocatedKeepsIndirect(sb, d, inodes, owner, a, j);
    SetEntrySlots(sb, d, inodes, owner, i, w, a, j, l);
    var d', e := EntryAllocated(sb, d, inodes[i], w, a), SetEntry(d, inodes[i], w, a);
    SlotFrame(e, d', inodes[j], l);
  }

  lemma AllocEntry(sb: Super, d: Image, inodes: map<nat, Inode>, owner: Owner, a: nat, i: nat, w: nat)
    requires Owned(sb, d, inodes, owner) && a < sb.size && !Used(sb, d, a)
    requires i in inodes && AddrsOwned(d, inodes[i], i, owner) && inodes[i].addrs[NDIRECT] != 0 && w < NINDIRECT
    requires SlotAddr(d, inodes[i], NDIRECT + 1 + w) == 0
    ensures Owned(sb, EntryAllocated(sb, d, inodes[i], w, a), inodes, owner[a := (i, NDIRECT + 1 + w)])
  {
    FreeIsUnowned(sb, d, inodes, owner, a);
    SlotInData(sb, d, inodes, owner, i, NDIRECT);
    var d', owner' := EntryAllocated(sb, d, inodes[i], w, a), owner[a := (i, NDIRECT + 1 + w)];
    forall j | j in inodes ensures AddrsOwned(d', inodes[j], j, owner') {
      assert AddrsOwned(d, inodes[j], j, owner);
      forall l | 0 <= l < NSLOT ensures SlotOwned(d', inodes[j], j, l, owner') {
        assert SlotOwned(d, inodes[j], j, l, owner);
        AllocEntrySlots(sb, d, inodes, owner, a, i, w, j, l);
        SlotInData(sb, d, inodes, owner, j, l);
      }
    }
    forall b | b in owner' ensures Held(sb, d', inodes, owner', b) {
      if b == a {
        AllocEntrySlots(sb, d, inodes, owner, a, i, w, i, NDIRECT + 1 + w);
      } else {
        assert Held(sb, d, inodes, owner, b);
        var (j, l) := owner[b];
        AllocEntrySlots(sb, d, inodes, owner, a, i, w, j, l);
      }
    }
    forall b | 0 <= b < sb.size ensures Marked(sb, d', owner', b) {
      assert Marked(sb, d, owner, b);
      AllocatedBit(sb, d, a, b);
      UsedFrame(sb, Allocated(sb, d, a), d', b);
    }
  }

  // ------------------------------------------------------------- writing data

  /** Overwriting a data block that is not an indirect block leaves ownership alone. */
  lemma WriteKeepsOwned(sb: Super, d: Image, inodes: map<nat, Inode>, owner: Owner, b: nat, blk: Block)
    requires Owned(sb, d, inodes, owner) && sb.datastart <= b < sb.size
    requires b in owner ==> owner[b].1 != NDIRECT
    ensures Owned(sb, d[b := blk], inodes, owner)
  {
    var d' := d[b := blk];
    forall j, l | j in inodes && 0 <= l < NSLOT
      ensures AddrsOwned(d, inodes[j], j, owner) && SlotAddr(d', inodes[j], l) == SlotAddr(d, inodes[j], l)
    {
      SlotInData(sb, d, inodes, owner, j, NDIRECT);
      SlotFrame(d, d', inodes[j], l);
    }
    forall j | j in inodes ensures AddrsOwned(d', inodes[j], j, owner) {
      assert AddrsOwned(d, inodes[j], j, owner);
      forall l | 0 <= l < NSLOT ensures SlotOwned(d', inodes[j], j, l, owner) {
        assert SlotOwned(d, inodes[j], j, l, owner);
      }
    }
    forall a | a in owner ensures Held(sb, d', inodes, owner, a) {
      assert Held(sb, d, inodes, owner, a);
    }
    forall a | 0 <= a < sb.size ensures Marked(sb, d', owner, a) {
      assert Marked(sb, d, owner, a);
      UsedFrame(sb, d, d', a);
    }
  }

  // ------------------------------------------------------------------ freeing

  lemma FreedBit(sb: Super, d: Image, a: nat, b: nat)
    requires |d| == sb.size && a < sb.size && b < sb.size && Used(sb, d, a)
    ensures Used(sb, FlipUsed(sb, d, a), b) <==> b != a && Used(sb, d, b)
  {
    FlipUsedBit(sb, d, a, b);
  }

  lemma BitsAfterFree(sb: Super, d: Image, a: nat)
    requires |d| == sb.size && a < sb.size
    ensures Used(sb, d, a) ==>
      forall b :: 0 <= b < sb.size ==> (Used(sb, FlipUsed(sb, d, a), b) <==> b != a && Used(sb, d, b))
  {
    if Used(sb, d, a) {
      forall b | 0 <= b < sb.size ensures Used(sb, FlipUsed(sb, d, a), b) <==> b != a && Used(sb, d, b) {
        FreedBit(sb, d, a, b);
      }
    }
  }

  /** Freeing touches a bitmap block only, so every slot reads as before. */
  lemma FlipKeepsSlots(sb: Super, d: Image, inodes: map<nat, Inode>, owner: Owner, a: nat, j: nat, l: nat)
    requires Owned(sb, d, inodes, owner) && a < sb.size && j in inodes && l < NSLOT
    ensures AddrsOwned(d, inodes[j], j, owner)
    ensures SlotAddr(FlipUsed(sb, d, a), inodes[j], l) == SlotAddr(d, inodes[j], l)
  {
    SlotInData(sb, d, inodes, owner, j, NDIRECT);
    BitmapBlockInRange(sb, a);
    SlotFrame(d, FlipUsed(sb, d, a), inodes[j], l);
  }

  /** An owned block is marked, so bfree never panics with "freeing free block". */
  lemma OwnedIsUsed(sb: Super, d: Image, inodes: map<nat, Inode>, owner: Owner, a: nat)
    requires Owned(sb, d, inodes, owner) && a in owner
    ensures sb.datastart <= a < sb.size && Used(sb, d, a)
  {
    assert Held(sb, d, inodes, owner, a);
    assert Marked(sb, d, owner, a);
  }

  ghost predicate NoEntries(d: Image, ip: Inode)
  {
    forall l :: NDIRECT < l < NSLOT ==> SlotAddr(d, ip, l) == 0
  }

  lemma FreeDirectSlots(sb: Super, d: Image, inodes: map<nat, Inode>, owner: Owner, i: nat, k: nat, j: nat, l: nat)
    requires Owned(sb, d, inodes, owner) && i in inodes && AddrsOwned(d, inodes[i], i, owner)
    requires k <= NDIRECT && inodes[i].addrs[k] < sb.size && (k == NDIRECT ==> NoEntries(d, inodes[i]))
    requires j in inodes && l < NSLOT
    ensures AddrsOwned(d, inodes[j], j, owner)
    ensures var ip' := SetDirect(inodes, i, k, 0)[j];
            && ip'.addrs[NDIRECT] < |d|
            && SlotAddr(FlipUsed(sb, d, inodes[i].addrs[k]), ip', l) ==
               if j == i && l == k then 0 else SlotAddr(d, inodes[j], l)
  {
    FlipKeepsSlots(sb, d, inodes, owner, inodes[i].addrs[k], j, l);
  }

  /** Slot k <= 12 of inode i gives its block back. */
  lemma FreeDirect(sb: Super, d: Image, inodes: map<nat, Inode>, owner: Owner, i: nat, k: nat)
    requires Owned(sb, d, inodes, owner) && i in inodes && AddrsOwned(d, inodes[i], i, owner)
    requires k <= NDIRECT && inodes[i].addrs[k] != 0 && (k == NDIRECT ==> NoEntries(d, inodes[i]))
    ensures inodes[i].addrs[k] in owner && inodes[i].addrs[k] < sb.size
    ensures var a := inodes[i].addrs[k];
            Owned(sb, FlipUsed(sb, d, a), SetDirect(inodes, i, k, 0), owner - {a})
  {
    var a := inodes[i].addrs[k];
    SlotInData(sb, d, inodes, owner, i, k);
    OwnedIsUsed(sb, d, inodes, owner, a);
    var d', inodes', owner' := FlipUsed(sb, d, a), SetDirect(inodes, i, k, 0), owner - {a};
    forall j | j in inodes' ensures AddrsOwned(d', inodes'[j], j, owner') {
      FreeDirectSlots(sb, d, inodes, owner, i, k, j, 0);
      forall l | 0 <= l < NSLOT ensures SlotOwned(d', inodes'[j], j, l, owner') {
        FreeDirectSlots(sb, d, inodes, owner, i, k, j, l);
        SlotInData(sb, d, inodes, owner, j, l);
      }
    }
    forall b | b in owner' ensures Held(sb, d', inodes', owner', b) {
      assert Held(sb, d, inodes, owner, b);
      var (j, l) := owner[b];
      FreeDirectSlots(sb, d, inodes, owner, i, k, j, l);
    }
    forall b | 0 <= b < sb.size ensures Marked(sb, d', owner', b) {
      assert Marked(sb, d, owner, b);
      FreedBit(sb, d, a, b);
    }
  }

  lemma FreeEntrySlots(sb: Super, d: Image, inodes: map<nat, Inode>, owner: Owner, a: nat, i: nat, w: nat, j: nat,
                       l: nat)
    requires Owned(sb, d, inodes, owner) && a < sb.size && i in inodes && AddrsOwned(d, inodes[i], i, owner)
    requires inodes[i].addrs[NDIRECT] != 0 && w < NINDIRECT && j in inodes && l < NSLOT
    ensures AddrsOwned(d, inodes[j], j, owner)
    ensures SlotAddr(SetEntry(FlipUsed(sb, d, a), inodes[i], w, 0), inodes[j], l) ==
            if j == i && l == NDIRECT + 1 + w then 0 else SlotAddr(d, inodes[j], l)
  {
    SlotInData(sb, d, inodes, owner, i, NDIRECT);
    SlotInData(sb, d, inodes, owner, j, NDIRECT);
    BitmapBlockInRange(sb, a);
    SetEntrySlots(sb, d, inodes, owner, i, w, 0, j, l);
    SlotFrame(SetEntry(d, inodes[i], w, 0), SetEntry(FlipUsed(sb, d, a), inodes[i], w, 0), inodes[j], l);
  }

  /** Entry w of the indirect block gives its block back and is cleared. */
  lemma FreeEntry(sb: Super, d: Image, inodes: map<nat, Inode>, owner: Owner, i: nat, w: nat)
    requires Owned(sb, d, inodes, owner) && i in inodes && AddrsOwned(d, inodes[i], i, owner)
    requires w < NINDIRECT && SlotAddr(d, inodes[i], NDIRECT + 1 + w) != 0
    ensures var a := SlotAddr(d, inodes[i], NDIRECT + 1 + w);
            && a in owner && a < sb.size && inodes[i].addrs[NDIRECT] != a
            && Owned(sb, SetEntry(FlipUsed(sb, d, a), inodes[i], w, 0), inodes, owner - {a})
  {
    var k := NDIRECT + 1 + w;
    var a := SlotAddr(d, inodes[i], k);
    SlotInData(sb, d, inodes, owner, i, k);
    SlotInData(sb, d, inodes, owner, i, NDIRECT);
    OwnedIsUsed(sb, d, inodes, owner, a);
    var e := FlipUsed(sb, d, a);
    var d', owner' := SetEntry(e, inodes[i], w, 0), owner - {a};
    forall j | j in inodes ensures AddrsOwned(d', inodes[j], j, owner') {
      assert AddrsOwned(d, inodes[j], j, owner);
      forall l | 0 <= l < NSLOT ensures SlotOwned(d', inodes[j], j, l, owner') {
        FreeEntrySlots(sb, d, inodes, owner, a, i, w, j, l);
        SlotInData(sb, d, inodes, owner, j, l);
      }
    }
    forall b | b in owner' ensures Held(sb, d', inodes, owner', b) {
      assert Held(sb, d, inodes, owner, b);
      var (j, l) := owner[b];
      FreeEntrySlots(sb, d, inodes, owner, a, i, w, j, l);
    }
    forall b | 0 <= b < sb.size ensures Marked(sb, d', owner', b) {
      assert Marked(sb, d, owner, b);
      FreedBit(sb, d, a, b);
      UsedFrame(sb, e, d', b);
    }
  }

  // ------------------------------------------------------------- file contents

  /** Byte `pos` of a file; a missing block reads as zeroes. */
  function ByteAt(d: Image, ip: Inode, pos: nat): Byte
    requires pos < MAXFILE * BSIZE
  {
    var a := SlotAddr(d, ip, DataSlot(pos / BSIZE));
    if 0 < a < |d| then d[a][pos % BSIZE] else 0
  }

  /** The address of block bn of a file: one of 12 in the inode, or an entry of the indirect block. */
  function BlockOf(d: Image, ip: Inode, bn: nat): nat
    requires bn < 140
  {
    if bn < 12 then ip.addrs[bn]
    else if 0 < ip.addrs[12] < |d| then LittleEndian(d[ip.addrs[12]], 4 * (bn - 12))
    else 0
  }

  lemma BlockPlace(d: Image, ip: Inode, bn: nat)
    requires bn < MAXFILE
    ensures SlotAddr(d, ip, DataSlot(bn)) == BlockOf(d, ip, bn)
  {
    if bn >= NDIRECT && 0 < ip.addrs[NDIRECT] < |d| {
      WordPlace(d[ip.addrs[NDIRECT]], bn - NDIRECT);
    }
  }

  /** Byte pos of a file is byte pos % 512 of its block pos / 512. */
  lemma BytePlace(d: Image, ip: Inode, pos: nat)
    requires pos < MAXFILE * BSIZE
    ensures var a := BlockOf(d, ip, pos / 512); ByteAt(d, ip, pos) == if 0 < a < |d| then d[a][pos % 512] else 0
  {
    BlockPlace(d, ip, pos / BSIZE);
  }

  ghost predicate ByteKept(d: Image, ip: Inode, d': Image, ip': Inode, pos: nat)
    requires pos < MAXFILE * BSIZE
  {
    ByteAt(d', ip', pos) == ByteAt(d, ip, pos)
  }

  /** Both images show the same bytes of a file. */
  ghost predicate SameBytes(d: Image, ip: Inode, d': Image, ip': Inode) {
    forall pos :: 0 <= pos < MAXFILE * BSIZE ==> ByteKept(d, ip, d', ip', pos)
  }

  /** An allocated block was nobody's, so no data block of any file changes. */
  lemma AllocatedKeepsData(sb: Super, d: Image, inodes: map<nat, Inode>, owner: Owner, a: nat, j: nat, k: nat)
    requires Owned(sb, d, inodes, owner) && a < sb.size && !Used(sb, d, a) && j in inodes && k < NSLOT
    ensures AddrsOwned(d, inodes[j], j, owner)
    ensures var b := SlotAddr(d, inodes[j], k); b != 0 ==> b < |d| && Allocated(sb, d, a)[b] == d[b]
  {
    FreeIsUnowned(sb, d, inodes, owner, a);
    SlotInData(sb, d, inodes, owner, j, k);
    BitmapBlockInRange(sb, a);
  }

  lemma AllocDirectKeepsBytes(sb: Super, d: Image, inodes: map<nat, Inode>, owner: Owner, a: nat, i: nat, k: nat,
                              j: nat)
    requires Owned(sb, d, inodes, owner) && a < sb.size && !Used(sb, d, a)
    requires i in inodes && AddrsOwned(d, inodes[i], i, owner) && k <= NDIRECT && inodes[i].addrs[k] == 0
    requires j in inodes
    ensures SameBytes(d, inodes[j], Allocated(sb, d, a), SetDirect(inodes, i, k, a)[j])
  {
    var d', ip' := Allocated(sb, d, a), SetDirect(inodes, i, k, a)[j];
    FreeIsUnowned(sb, d, inodes, owner, a);
    assert AddrsOwned(d, inodes[j], j, owner);
    forall pos | 0 <= pos < MAXFILE * BSIZE ensures ByteKept(d, inodes[j], d', ip', pos) {
      var l := DataSlot(pos / BSIZE);
      AllocDirectSlots(sb, d, inodes, owner, a, i, k, j, l);
      AllocatedKeepsData(sb, d, inodes, owner, a, j, l);
    }
    AllocDirectSlots(sb, d, inodes, owner, a, i, k, j, 0);
  }

  lemma AllocEntryKeepsBytes(sb: Super, d: Image, inodes: map<nat, Inode>, owner: Owner, a: nat, i: nat, w: nat, j: nat)
    requires Owned(sb, d, inodes, owner) && a < sb.size && !Used(sb, d, a)
    requires i in inodes && AddrsOwned(d, inodes[i], i, owner) && inodes[i].addrs[NDIRECT] != 0 && w < NINDIRECT
    requires SlotAddr(d, inodes[i], NDIRECT + 1 + w) == 0 && j in inodes
    ensures SameBytes(d, inodes[j], EntryAllocated(sb, d, inodes[i], w, a), inodes[j])
  {
    var d' := EntryAllocated(sb, d, inodes[i], w, a);
    FreeIsUnowned(sb, d, inodes, owner, a);
    SlotInData(sb, d, inodes, owner, i, NDIRECT);
    assert AddrsOwned(d, inodes[j], j, owner);
    forall pos | 0 <= pos < MAXFILE * BSIZE ensures ByteKept(d, inodes[j], d', inodes[j], pos) {
      var l := DataSlot(pos / BSIZE);
      AllocEntrySlots(sb, d, inodes, owner, a, i, w, j, l);
      AllocatedKeepsData(sb, d, inodes, owner, a, j, l);
      SlotInData(sb, d, inodes, owner, j, l);
    }
  }

  /** Overwriting block bn of file i changes those bytes of that file and no others. */
  lemma WriteChangesBytes(sb: Super, d: Image, inodes: map<nat, Inode>, owner: Owner, i: nat, bn: nat, blk: Block,
                          j: nat, pos: nat)
    requires Owned(sb, d, inodes, owner) && i in inodes && AddrsOwned(d, inodes[i], i, owner) && bn < MAXFILE
    requires SlotAddr(d, inodes[i], DataSlot(bn)) != 0 && j in inodes && pos < MAXFILE * BSIZE
    ensures AddrsOwned(d, inodes[j], j, owner) && SlotAddr(d, inodes[i], DataSlot(bn)) < |d|
    ensures ByteAt(d[SlotAddr(d, inodes[i], DataSlot(bn)) := blk], inodes[j], pos) ==
            if j == i && pos / BSIZE == bn then blk[pos % BSIZE] else ByteAt(d, inodes[j], pos)
  {
    var b, l := SlotAddr(d, inodes[i], DataSlot(bn)), DataSlot(pos / BSIZE);
    SlotInData(sb, d, inodes, owner, i, DataSlot(bn));
    SlotInData(sb, d, inodes, owner, j, NDIRECT);
    SlotInData(sb, d, inodes, owner, j, l);
    SlotFrame(d, d[b := blk], inodes[j], l);
  }

  // ------------------------------------------- what filling a missing slot keeps

  ghost predicate SlotKept(d: Image, ip: Inode, d': Image, ip': Inode, k: nat)
    requires k < NSLOT
  {
    SlotAddr(d, ip, k) != 0 ==> SlotAddr(d', ip', k) == SlotAddr(d, ip, k)
  }

  /** The file has the blocks it had. */
  ghost predicate SlotsKept(d: Image, ip: Inode, d': Image, ip': Inode) {
    forall k :: 0 <= k < NSLOT ==> SlotKept(d, ip, d', ip', k)
  }

  /** The file has the same size and bytes, and the blocks it had. */
  ghost predicate Kept(d: Image, ip: Inode, d': Image, ip': Inode) {
    SameBytes(d, ip, d', ip') && ip'.size == ip.size && SlotsKept(d, ip, d', ip')
  }

  /** Every file is kept, and only inode i may have changed. */
  ghost predicate Extends(d: Image, inodes: map<nat, Inode>, d': Image, inodes': map<nat, Inode>, i: nat) {
    && inodes'.Keys == inodes.Keys
    && (forall j :: j in inodes && j != i ==> inodes'[j] == inodes[j])
    && (forall j {:trigger Kept(d, inodes[j], d', inodes'[j])} :: j in inodes ==> Kept(d, inodes[j], d', inodes'[j]))
  }

  lemma KeptTrans(d: Image, ip: Inode, d1: Image, ip1: Inode, d2: Image, ip2: Inode)
    requires Kept(d, ip, d1, ip1) && Kept(d1, ip1, d2, ip2)
    ensures Kept(d, ip, d2, ip2)
  {
    forall pos | 0 <= pos < MAXFILE * BSIZE ensures ByteKept(d, ip, d2, ip2, pos) {
      assert ByteKept(d, ip, d1, ip1, pos) && ByteKept(d1, ip1, d2, ip2, pos);
    }
    forall k | 0 <= k < NSLOT ensures SlotKept(d, ip, d2, ip2, k) {
      assert SlotKept(d, ip, d1, ip1, k) && SlotKept(d1, ip1, d2, ip2, k);
    }
  }

  lemma ExtendsTrans(d: Image, n: map<nat, Inode>, d1: Image, n1: map<nat, Inode>, d2: Image, n2: map<nat, Inode>,
                     i: nat)
    requires Extends(d, n, d1, n1, i) && Extends(d1, n1, d2, n2, i)
    ensures Extends(d, n, d2, n2, i)
  {
    forall j | j in n ensures Kept(d, n[j], d2, n2[j]) {
      assert Kept(d, n[j], d1, n1[j]) && Kept(d1, n1[j], d2, n2[j]);
      KeptTrans(d, n[j], d1, n1[j], d2, n2[j]);
    }
  }

  lemma ExtendsRefl(sb: Super, d: Image, inodes: map<nat, Inode>, owner: Owner, i: nat)
    requires Owned(sb, d, inodes, owner)
    ensures Extends(d, inodes, d, inodes, i)
  {
    forall j | j in inodes ensures Kept(d, inodes[j], d, inodes[j]) {
      assert AddrsOwned(d, inodes[j], j, owner);
    }
  }

  lemma AllocDirectExtends(sb: Super, d: Image, inodes: map<nat, Inode>, owner: Owner, a: nat, i: nat, k: nat)
    requires Owned(sb, d, inodes, owner) && a < sb.size && !Used(sb, d, a)
    requires i in inodes && AddrsOwned(d, inodes[i], i, owner) && k <= NDIRECT && inodes[i].addrs[k] == 0
    ensures Extends(d, inodes, Allocated(sb, d, a), SetDirect(inodes, i, k, a), i)
  {
    var d', inodes' := Allocated(sb, d, a), SetDirect(inodes, i, k, a);
    forall j | j in inodes ensures Kept(d, inodes[j], d', inodes'[j]) {
      AllocDirectKeepsBytes(sb, d, inodes, owner, a, i, k, j);
      assert AddrsOwned(d, inodes[j], j, owner);
      forall l | 0 <= l < NSLOT ensures SlotKept(d, inodes[j], d', inodes'[j], l) {
        AllocDirectSlots(sb, d, inodes, owner, a, i, k, j, l);
      }
    }
  }

  lemma AllocEntryExtends(sb: Super, d: Image, inodes: map<nat, Inode>, owner: Owner, a: nat, i: nat, w: nat)
    requires Owned(sb, d, inodes, owner) && a < sb.size && !Used(sb, d, a)
    requires i in inodes && AddrsOwned(d, inodes[i], i, owner) && inodes[i].addrs[NDIRECT] != 0 && w < NINDIRECT
    requires SlotAddr(d, inodes[i], NDIRECT + 1 + w) == 0
    ensures Extends(d, inodes, EntryAllocated(sb, d, inodes[i], w, a), inodes, i)
  {
    var d' := EntryAllocated(sb, d, inodes[i], w, a);
    forall j | j in inodes ensures Kept(d, inodes[j], d', inodes[j]) {
      AllocEntryKeepsBytes(sb, d, inodes, owner, a, i, w, j);
      assert AddrsOwned(d, inodes[j], j, owner);
      forall l | 0 <= l < NSLOT ensures SlotKept(d, inodes[j], d', inodes[j], l) {
        AllocEntrySlots(sb, d, inodes, owner, a, i, w, j, l);
      }
    }
  }

  // ----------------------------------------------------------------- no holes

  ghost predicate HasBlock(d: Image, ip: Inode, bn: nat)
    requires bn < MAXFILE
  {
    SlotAddr(d, ip, DataSlot(bn)) != 0
  }

  /** Every block below the size of the file exists. */
  ghost predicate NoHoles(d: Image, ip: Inode) {
    && ip.size <= MAXFILE * BSIZE
    && forall bn :: 0 <= bn < MAXFILE && bn * BSIZE < ip.size ==> HasBlock(d, ip, bn)
  }

  ghost predicate AllFull(d: Image, inodes: map<nat, Inode>) {
    forall j {:trigger NoHoles(d, inodes[j])} :: j in inodes ==> NoHoles(d, inodes[j])
  }

  lemma KeptNoHoles(d: Image, ip: Inode, d': Image, ip': Inode)
    requires Kept(d, ip, d', ip') && NoHoles(d, ip)
    ensures NoHoles(d', ip')
  {
    forall bn | 0 <= bn < MAXFILE && bn * BSIZE < ip'.size ensures HasBlock(d', ip', bn) {
      assert HasBlock(d, ip, bn) && SlotKept(d, ip, d', ip', DataSlot(bn));
    }
  }
}
