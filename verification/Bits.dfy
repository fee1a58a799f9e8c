/** Bytes as bits and as little-endian words: the bitmap and the indirect block. */
module Bits {
  import opened Common

  const BSIZE := 512

  type Block = s: seq<Byte> | |s| == BSIZE witness seq(BSIZE, _ => 0)

  function Zeroes(): (z: Block)
    ensures forall i :: 0 <= i < BSIZE ==> z[i] == 0
  {
    seq(BSIZE, _ => 0)
  }

  // ------------------------------------------------------------------- bits

  /** `1 << k` */
  function Mask(k: nat): nat {
    if k == 0 then 1 else 2 * Mask(k - 1)
  }

  /** `(b & (1 << k)) != 0` */
  predicate Bit(b: nat, k: nat) {
    if k == 0 then b % 2 == 1 else Bit(b / 2, k - 1)
  }

  /** The number with bit k inverted. */
  function Flip(b: nat, k: nat): nat {
    if k == 0 then (if b % 2 == 1 then b - 1 else b + 1) else b % 2 + 2 * Flip(b / 2, k - 1)
  }

  /** `b | (1 << k)` for a clear bit, `b & ~(1 << k)` for one that is set. */
  lemma {:induction false} FlipIsMask(b: nat, k: nat)
    ensures Flip(b, k) == if Bit(b, k) then b - Mask(k) else b + Mask(k)
  {
    if k > 0 {
      FlipIsMask(b / 2, k - 1);
    }
  }

  /** The masks of the eight bits of a byte. */
  lemma ByteMasks()
    ensures Mask(0) == 1 && Mask(1) == 2 && Mask(2) == 4 && Mask(3) == 8
    ensures Mask(4) == 16 && Mask(5) == 32 && Mask(6) == 64 && Mask(7) == 128
  {
    assert Mask(3) == 8;
    assert Mask(5) == 32;
  }

  /** Bit k is the digit of that mask. */
  lemma {:induction false} BitIsDigit(b: nat, k: nat)
    ensures Mask(k) > 0 && (Bit(b, k) <==> b / Mask(k) % 2 == 1)
  {
    if k > 0 {
      BitIsDigit(b / 2, k - 1);
      HalfOf(b, Mask(k - 1));
    }
  }

  lemma HalfOf(b: nat, m: nat)
    requires m > 0
    ensures b / 2 / m == b / (2 * m)
  {
    var q, r := b / (2 * m), b % (2 * m);
    assert b == q * (2 * m) + r;
    assert b / 2 == q * m + r / 2 && 0 <= r / 2 < m;
    Quotient(b / 2, m, q, r / 2);
  }

  lemma Quotient(x: nat, m: nat, q: nat, r: nat)
    requires x == q * m + r && r < m
    ensures x / m == q
  {
    var y, s := x / m, x % m;
    assert x == y * m + s;
    if q < y {
      Steps(q, y, m);
    } else if y < q {
      Steps(y, q, m);
    }
  }

  lemma {:induction false} Steps(a: nat, b: nat, m: nat)
    requires a < b
    ensures a * m + m <= b * m
    decreases b
  {
    var c := b - 1;
    assert b * m == c * m + m;
    if a < c {
      Steps(a, c, m);
    }
  }

  lemma {:induction false} FlipInRange(b: nat, k: nat, n: nat)
    requires k < n && b < Mask(n)
    ensures Flip(b, k) < Mask(n)
  {
    if k == 0 {
      Halves(b, 0, Mask(n - 1));
    } else {
      Halves(b, Flip(b / 2, k - 1), Mask(n - 1));
      FlipInRange(b / 2, k - 1, n - 1);
    }
  }

  lemma Halves(b: nat, f: nat, m: nat)
    requires b < 2 * m
    ensures b / 2 < m && (f < m ==> b % 2 + 2 * f < 2 * m) && (b % 2 == 0 ==> b + 1 < 2 * m)
  {
  }

  lemma {:induction false} FlipBit(b: nat, k: nat, j: nat)
    ensures Bit(Flip(b, k), j) <==> (if j == k then !Bit(b, k) else Bit(b, j))
  {
    if k > 0 && j > 0 {
      FlipBit(b / 2, k - 1, j - 1);
      FlipAbove(b, k, j);
    } else if j > 0 {
      FlipLowest(b, j);
    } else if k > 0 {
      LowestKept(b, k);
    }
  }

  lemma FlipLowest(b: nat, j: nat)
    requires j > 0
    ensures Bit(Flip(b, 0), j) <==> Bit(b, j)
  {
    assert Flip(b, 0) / 2 == b / 2;
  }

  lemma LowestKept(b: nat, k: nat)
    requires k > 0
    ensures Bit(Flip(b, k), 0) <==> Bit(b, 0)
  {
    LowestOf(b % 2, Flip(b / 2, k - 1));
  }

  lemma LowestOf(r: nat, f: nat)
    requires r < 2
    ensures (r + 2 * f) % 2 == r && (r + 2 * f) / 2 == f
  {
  }

  lemma FlipAbove(b: nat, k: nat, j: nat)
    requires k > 0 && j > 0
    ensures Bit(Flip(b, k), j) <==> Bit(Flip(b / 2, k - 1), j - 1)
  {
    LowestOf(b % 2, Flip(b / 2, k - 1));
  }

  /** Bit i of a bitmap block, and the block with that bit inverted. */
  predicate BlockBit(blk: Block, i: nat)
    requires i < 8 * BSIZE
  {
    Bit(blk[i / 8], i % 8)
  }

  function FlipBlock(blk: Block, i: nat): Block
    requires i < 8 * BSIZE
  {
    assert Flip(blk[i / 8], i % 8) < 256 by { MaskOf8(); FlipInRange(blk[i / 8], i % 8, 8); }
    blk[i / 8 := Flip(blk[i / 8], i % 8)]
  }

  lemma MaskOf8()
    ensures Mask(8) == 256
  {
    assert Mask(4) == 16;
    assert Mask(6) == 64;
  }

  lemma FlipBlockBit(blk: Block, i: nat, j: nat)
    requires i < 8 * BSIZE && j < 8 * BSIZE
    ensures BlockBit(FlipBlock(blk, i), j) <==> (if j == i then !BlockBit(blk, i) else BlockBit(blk, j))
  {
    if i / 8 == j / 8 {
      FlipBit(blk[i / 8], i % 8, j % 8);
      assert i == i / 8 * 8 + i % 8 && j == j / 8 * 8 + j % 8;
    }
  }

  // ------------------------------------------------------------------ words

  const NINDIRECT := 128

  /** `((uint*)data)[i]` */
  function Word(blk: Block, i: nat): nat
    requires i < NINDIRECT
  {
    var b0: nat, b1: nat, b2: nat, b3: nat := blk[4 * i], blk[4 * i + 1], blk[4 * i + 2], blk[4 * i + 3];
    b0 + 256 * b1 + 65536 * b2 + 16777216 * b3
  }

  function SetWord(blk: Block, i: nat, w: nat): Block
    requires i < NINDIRECT && w < UINT
  {
    blk[4 * i := w % 256][4 * i + 1 := w / 256 % 256]
       [4 * i + 2 := w / 256 / 256 % 256][4 * i + 3 := w / 256 / 256 / 256]
  }

  lemma WordOfSetWord(blk: Block, i: nat, w: nat, j: nat)
    requires i < NINDIRECT && j < NINDIRECT && w < UINT
    ensures Word(SetWord(blk, i, w), j) == if j == i then w else Word(blk, j)
  {
  }

  /** The number in the four bytes at offset o, the low byte first. */
  function LittleEndian(blk: Block, o: nat): nat
    requires o + 4 <= BSIZE
  {
    var b0: nat, b1: nat, b2: nat, b3: nat := blk[o], blk[o + 1], blk[o + 2], blk[o + 3];
    b0 + 256 * b1 + 65536 * b2 + 16777216 * b3
  }

  lemma WordPlace(blk: Block, i: nat)
    requires i < NINDIRECT
    ensures Word(blk, i) == LittleEndian(blk, 4 * i)
  {
  }

  lemma WordOfZeroes(i: nat)
    requires i < NINDIRECT
    ensures Word(Zeroes(), i) == 0
  {
  }
}
