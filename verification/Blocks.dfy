/**
 Disk blocks, the on-disk log header and the layout of the log region.

 A block is BSIZE = 512 bytes, seen by the log as 128 machine words.  The log
 header occupies the first block of the log region: word 0 is the number of
 logged blocks, words 1..n are their home block numbers.
 */
module Blocks {
  import opened Common

  const LOGSIZE := 30
  const NBUF := 30
  const BLOCK_WORDS := 128

  type Word = w: int | 0 <= w < UINT
  type Block = b: seq<Word> | |b| == BLOCK_WORDS witness seq(BLOCK_WORDS, _ => 0)

  /** `log.start`, `log.size` and the number of blocks of the device. */
  datatype LogRegion = LogRegion(start: nat, size: nat, total: nat) {

    predicate Valid() {
      2 <= size && start + size <= total < 0x8000_0000
    }

    /** A block outside the log region. */
    predicate Home(b: int) {
      0 <= b < total && !(start <= b < start + size)
    }

    /** The log block that holds the i-th logged block. */
    function Slot(i: nat): nat {
      start + 1 + i
    }

    /** The test of `log_write` passes below this length; the log region has slots for no more. */
    function Capacity(): int {
      if size - 1 < LOGSIZE then size - 1 else LOGSIZE
    }
  }

  /** mkfs: the log starts at block 2 and has LOGSIZE blocks, header included. */
  type Layout = L: LogRegion | L.Valid() witness LogRegion(2, LOGSIZE, 1000)

  /** `read_head`: the list of home block numbers stored in a header block. */
  function HeaderList(h: Block): seq<Word> {
    if h[0] <= LOGSIZE then h[1..1 + h[0]] else []
  }

  /** `write_head`: only the count and the first n entries of the block change. */
  function EncodeHeader(h: Block, list: seq<Word>): Block
    requires |list| <= LOGSIZE
  {
    [|list|] + list + h[1 + |list|..]
  }

  lemma HeaderRoundTrip(h: Block, list: seq<Word>)
    requires |list| <= LOGSIZE
    ensures EncodeHeader(h, list)[0] == |list|
    ensures HeaderList(EncodeHeader(h, list)) == list
    ensures forall k :: |list| < k < BLOCK_WORDS ==> EncodeHeader(h, list)[k] == h[k]
  {
    var e := EncodeHeader(h, list);
    assert e[0] == |list|;
    assert e[1..1 + |list|] == list;
  }

  ghost predicate Distinct<T(!new)>(s: seq<T>) {
    forall i, j :: 0 <= i < j < |s| ==> s[i] != s[j]
  }
}
