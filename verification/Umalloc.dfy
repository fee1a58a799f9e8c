/**
 The user-level allocator (umalloc.c), after section 8.7 of The C Programming
 Language, 2nd edition.  Addresses count in units of sizeof(Header) = 8 bytes.

 The free list is circular and ordered by address; it always holds the static
 header `base`, of size 0, which lies below the memory that sbrk hands out.
 */
module Umalloc {
  import opened Common

  const UNIT := 8
  const MORECORE := 4096

  type uint = x: int | 0 <= x < UINT

  datatype Header = Header(ptr: int, size: int)

  /** A block of `size` units, header included, at unit address `addr`. */
  datatype Block = Block(addr: int, size: int) {
    function End(): int {
      addr + size
    }
  }

  type FreeList = seq<Block>

  // ------------------------------------------------------- the free list as a value

  /** Ascending addresses, no overlap, and `base` first. */
  ghost predicate Sorted(base: int, fl: FreeList) {
    && |fl| > 0 && fl[0] == Block(base, 0)
    && (forall i :: 0 < i < |fl| ==> fl[i].size > 0)
    && (forall i, j :: 0 <= i < j < |fl| ==> fl[i].addr < fl[j].addr && fl[i].End() <= fl[j].addr)
  }

  /** No two free blocks touch, except perhaps entries i and i+1 for i in `except`. */
  ghost predicate Gaps(fl: FreeList, except: set<int>) {
    forall i :: 0 <= i < |fl| - 1 && i !in except ==> Gap(fl, i)
  }

  predicate Gap(fl: FreeList, i: nat)
    requires i + 1 < |fl|
  {
    fl[i].End() < fl[i + 1].addr
  }

  ghost predicate InFree(fl: FreeList, u: int) {
    exists i :: 0 <= i < |fl| && fl[i].addr <= u < fl[i].End()
  }

  function Succ(fl: FreeList, i: nat): int
    requires i < |fl|
  {
    if i + 1 < |fl| then fl[i + 1].addr else fl[0].addr
  }

  /** Each free header holds its size and points to the next one, the last to the first. */
  ghost predicate Linked(mem: map<int, Header>, fl: FreeList) {
    forall i :: 0 <= i < |fl| ==> HeaderAt(mem, fl, i)
  }

  predicate HeaderAt(mem: map<int, Header>, fl: FreeList, i: nat)
    requires i < |fl|
  {
    fl[i].addr in mem && mem[fl[i].addr] == Header(Succ(fl, i), fl[i].size)
  }

  /** Block b lies in the gap after entry j. */
  ghost predicate FitsAfter(fl: FreeList, j: nat, b: Block) {
    && j < |fl| && b.size > 0
    && fl[j].addr < b.addr && fl[j].End() <= b.addr
    && (j + 1 < |fl| ==> b.End() <= fl[j + 1].addr)
  }

  function Insert(fl: FreeList, j: nat, b: Block): FreeList
    requires j < |fl|
  {
    fl[..j + 1] + [b] + fl[j + 1..]
  }

  predicate Touch(fl: FreeList, i: nat) {
    i + 1 < |fl| && fl[i].End() == fl[i + 1].addr
  }

  /** Entries i and i+1 joined into one block. */
  function Join(fl: FreeList, i: nat): FreeList
    requires i + 1 < |fl|
  {
    fl[..i] + [Block(fl[i].addr, fl[i].size + fl[i + 1].size)] + fl[i + 2..]
  }

  function JoinIfTouching(fl: FreeList, i: nat): FreeList {
    if Touch(fl, i) then Join(fl, i) else fl
  }

  /** The list with b put in after entry j and joined with its neighbours. */
  function Merge(fl: FreeList, j: nat, b: Block): FreeList
    requires j < |fl|
  {
    JoinIfTouching(JoinIfTouching(Insert(fl, j, b), j + 1), j)
  }

  lemma InsertSorted(base: int, fl: FreeList, j: nat, b: Block)
    requires Sorted(base, fl) && FitsAfter(fl, j, b)
    ensures Sorted(base, Insert(fl, j, b))
  {
    var fl' := Insert(fl, j, b);
    forall i, k | 0 <= i < k < |fl'| ensures fl'[i].addr < fl'[k].addr && fl'[i].End() <= fl'[k].addr {
      assert fl'[i] == if i <= j then fl[i] else if i == j + 1 then b else fl[i - 1];
      assert fl'[k] == if k <= j then fl[k] else if k == j + 1 then b else fl[k - 1];
      if k == j + 1 && i < j {
        assert fl[i].End() <= fl[j].addr;
      } else if i == j + 1 && k > j + 2 {
        assert fl[j + 1].addr < fl[k - 1].addr;
      }
    }
  }

  lemma InsertGaps(fl: FreeList, j: nat, b: Block)
    requires Gaps(fl, {}) && j < |fl|
    ensures Gaps(Insert(fl, j, b), {j as int, j + 1})
  {
    var fl' := Insert(fl, j, b);
    forall i | 0 <= i < |fl'| - 1 && i != j && i != j + 1 ensures Gap(fl', i) {
      assert Gap(fl, if i < j then i else i - 1);
    }
  }

  lemma JoinSorted(base: int, fl: FreeList, i: nat)
    requires Sorted(base, fl) && Touch(fl, i) && i > 0
    ensures Sorted(base, Join(fl, i))
  {
    var fl' := Join(fl, i);
    forall k, l | 0 <= k < l < |fl'| ensures fl'[k].addr < fl'[l].addr && fl'[k].End() <= fl'[l].addr {
      assert k < i ==> fl'[k] == fl[k];
      assert k > i ==> fl'[k] == fl[k + 1];
      assert l < i ==> fl'[l] == fl[l];
      assert l > i ==> fl'[l] == fl[l + 1];
    }
  }

  lemma JoinGaps(fl: FreeList, i: nat, except: set<int>)
    requires Touch(fl, i) && Gaps(fl, except) && forall x :: x in except ==> x <= i
    ensures Gaps(Join(fl, i), except - {i as int})
  {
    var fl' := Join(fl, i);
    forall k | 0 <= k < |fl'| - 1 && k !in except - {i as int} ensures Gap(fl', k) {
      assert Gap(fl, if k < i then k else k + 1);
    }
  }

  lemma InsertCovers(fl: FreeList, j: nat, b: Block, u: int)
    requires j < |fl|
    ensures InFree(Insert(fl, j, b), u) <==> InFree(fl, u) || b.addr <= u < b.End()
  {
    var fl' := Insert(fl, j, b);
    if InFree(fl', u) {
      var i :| 0 <= i < |fl'| && fl'[i].addr <= u < fl'[i].End();
      assert i != j + 1 ==> fl'[i] == fl[if i <= j then i else i - 1];
    }
    if InFree(fl, u) {
      var i :| 0 <= i < |fl| && fl[i].addr <= u < fl[i].End();
      assert fl[i] == fl'[if i <= j then i else i + 1];
    }
    assert fl'[j + 1] == b;
  }

  lemma JoinCovers(fl: FreeList, i: nat, u: int)
    requires Touch(fl, i) && fl[i].size >= 0 && fl[i + 1].size >= 0
    ensures InFree(Join(fl, i), u) <==> InFree(fl, u)
  {
    var fl' := Join(fl, i);
    if InFree(fl', u) {
      var k :| 0 <= k < |fl'| && fl'[k].addr <= u < fl'[k].End();
      if k == i {
        assert fl[i].addr <= u < fl[i].End() || fl[i + 1].addr <= u < fl[i + 1].End();
      } else {
        assert fl'[k] == fl[if k < i then k else k + 1];
      }
    }
    if InFree(fl, u) {
      var k :| 0 <= k < |fl| && fl[k].addr <= u < fl[k].End();
      if k == i || k == i + 1 {
        assert fl'[i].addr <= u < fl'[i].End();
      } else {
        assert fl[k] == fl'[if k < i then k else k - 1];
      }
    }
  }

  /** Merging keeps the order, leaves no two free blocks touching, and adds exactly b. */
  lemma MergeCorrect(base: int, fl: FreeList, j: nat, b: Block)
    requires Sorted(base, fl) && Gaps(fl, {}) && FitsAfter(fl, j, b)
    ensures Sorted(base, Merge(fl, j, b)) && Gaps(Merge(fl, j, b), {})
    ensures forall u :: InFree(Merge(fl, j, b), u) <==> InFree(fl, u) || b.addr <= u < b.End()
  {
    InsertSorted(base, fl, j, b);
    InsertGaps(fl, j, b);
    var fl1 := Insert(fl, j, b);
    JoinIfTouchingCorrect(base, fl1, j + 1, {j as int, j + 1});
    var fl2 := JoinIfTouching(fl1, j + 1);
    var one: set<int> := {j as int};
    assert {j as int, j + 1} - {j + 1} == one && one - {j as int} == {};
    JoinIfTouchingCorrect(base, fl2, j, one);
    assert Merge(fl, j, b) == JoinIfTouching(fl2, j);
    forall u ensures InFree(Merge(fl, j, b), u) <==> InFree(fl, u) || b.addr <= u < b.End() {
      InsertCovers(fl, j, b, u);
    }
  }

  lemma JoinIfTouchingCorrect(base: int, fl: FreeList, i: nat, except: set<int>)
    requires Sorted(base, fl) && Gaps(fl, except) && forall x :: x in except ==> x <= i
    ensures Sorted(base, JoinIfTouching(fl, i)) && Gaps(JoinIfTouching(fl, i), except - {i as int})
    ensures forall u :: InFree(JoinIfTouching(fl, i), u) <==> InFree(fl, u)
  {
    if Touch(fl, i) {
      JoinSorted(base, fl, i);
      JoinGaps(fl, i, except);
      forall u ensures InFree(Join(fl, i), u) <==> InFree(fl, u) {
        JoinCovers(fl, i, u);
      }
    } else if i + 1 < |fl| {
      assert Gap(fl, i);
    }
  }

  // -------------------------------------------------------------- only one such list

  lemma GapBefore(base: int, fl: FreeList, i: nat, j: nat)
    requires Sorted(base, fl) && Gaps(fl, {}) && i < j < |fl|
    ensures fl[i].End() < fl[j].addr
  {
    assert Gap(fl, i);
    assert i + 1 < j ==> fl[i + 1].addr < fl[j].addr;
  }

  lemma InFront(base: int, fl: FreeList, u: int)
    requires Sorted(base, fl) && |fl| > 1
    ensures InFree(fl[..|fl| - 1], u) <==> InFree(fl, u) && u < fl[|fl| - 1].addr
  {
    var last := |fl| - 1;
    if InFree(fl, u) && u < fl[last].addr {
      var i :| 0 <= i < |fl| && fl[i].addr <= u < fl[i].End();
      assert fl[..last][i] == fl[i];
    }
    if InFree(fl[..last], u) {
      var i :| 0 <= i < last && fl[..last][i].addr <= u < fl[..last][i].End();
      assert fl[i].End() <= fl[last].addr;
    }
  }

  ghost predicate SameUnits(a: FreeList, b: FreeList) {
    forall u :: SameUnit(a, b, u)
  }

  ghost predicate SameUnit(a: FreeList, b: FreeList, u: int) {
    InFree(a, u) <==> InFree(b, u)
  }

  /** The last block of one list ends no later, and starts no earlier, than that of the other. */
  lemma LastBlock(base: int, a: FreeList, b: FreeList)
    requires Sorted(base, a) && Sorted(base, b) && Gaps(b, {}) && |a| > 1 && |b| > 1 && SameUnits(a, b)
    ensures a[|a| - 1].End() <= b[|b| - 1].End()
    ensures a[|a| - 1].End() == b[|b| - 1].End() ==> a[|a| - 1].addr >= b[|b| - 1].addr
  {
    var x, y := a[|a| - 1], b[|b| - 1];
    assert InFree(a, x.End() - 1) && SameUnit(a, b, x.End() - 1);
    var i :| 0 <= i < |b| && b[i].addr <= x.End() - 1 < b[i].End();
    assert i < |b| - 1 ==> b[i].End() <= y.addr;
    if x.addr < y.addr < x.End() {
      assert InFree(a, y.addr - 1) && SameUnit(a, b, y.addr - 1);
      var k :| 0 <= k < |b| && b[k].addr <= y.addr - 1 < b[k].End();
      GapBefore(base, b, k, |b| - 1);
    }
  }

  lemma FrontKeeps(base: int, fl: FreeList)
    requires Sorted(base, fl) && Gaps(fl, {}) && |fl| > 1
    ensures Sorted(base, fl[..|fl| - 1]) && Gaps(fl[..|fl| - 1], {})
  {
    var front := fl[..|fl| - 1];
    forall i | 0 <= i < |front| - 1 ensures Gap(front, i) {
      assert Gap(fl, i);
    }
  }

  lemma FrontsAgree(base: int, a: FreeList, b: FreeList)
    requires Sorted(base, a) && Sorted(base, b) && |a| > 1 && |b| > 1 && SameUnits(a, b)
    requires a[|a| - 1].addr == b[|b| - 1].addr
    ensures SameUnits(a[..|a| - 1], b[..|b| - 1])
  {
    var a', b' := a[..|a| - 1], b[..|b| - 1];
    forall u ensures SameUnit(a', b', u) {
      assert SameUnit(a, b, u);
      InFront(base, a, u);
      InFront(base, b, u);
    }
  }

  lemma SameUnitsSym(a: FreeList, b: FreeList)
    requires SameUnits(a, b)
    ensures SameUnits(b, a)
  {
    forall u ensures SameUnit(b, a, u) {
      assert SameUnit(a, b, u);
    }
  }

  lemma BothOrNone(base: int, a: FreeList, b: FreeList)
    requires Sorted(base, a) && Sorted(base, b) && SameUnits(a, b)
    ensures |a| > 1 ==> |b| > 1
  {
    assert |a| > 1 ==> InFree(a, a[1].addr) && SameUnit(a, b, a[1].addr);
  }

  /** The free units determine the free list. */
  lemma {:induction false} FreeListUnique(base: int, a: FreeList, b: FreeList)
    requires Sorted(base, a) && Gaps(a, {}) && Sorted(base, b) && Gaps(b, {}) && SameUnits(a, b)
    ensures a == b
    decreases |a|
  {
    SameUnitsSym(a, b);
    BothOrNone(base, a, b);
    BothOrNone(base, b, a);
    if |a| > 1 && |b| > 1 {
      LastBlock(base, a, b);
      LastBlock(base, b, a);
      FrontKeeps(base, a);
      FrontKeeps(base, b);
      FrontsAgree(base, a, b);
      FreeListUnique(base, a[..|a| - 1], b[..|b| - 1]);
      assert a == a[..|a| - 1] + [a[|a| - 1]] && b == b[..|b| - 1] + [b[|b| - 1]];
    }
  }

  // ------------------------------------------------------------- headers in memory

  lemma InsertLinked(mem: map<int, Header>, fl: FreeList, j: nat, b: Block)
    requires Linked(mem, fl) && j < |fl| && (forall i :: 0 <= i < |fl| ==> fl[i].addr != b.addr)
    requires forall i, k :: 0 <= i < k < |fl| ==> fl[i].addr != fl[k].addr
    ensures var mem' := mem[b.addr := Header(Succ(fl, j), b.size)][fl[j].addr := Header(b.addr, fl[j].size)];
            Linked(mem', Insert(fl, j, b))
  {
    var fl' := Insert(fl, j, b);
    var mem' := mem[b.addr := Header(Succ(fl, j), b.size)][fl[j].addr := Header(b.addr, fl[j].size)];
    forall i | 0 <= i < |fl'| ensures HeaderAt(mem', fl', i) {
      if i != j + 1 {
        var k := if i <= j then i else i - 1;
        assert fl'[i] == fl[k] && HeaderAt(mem, fl, k);
      }
    }
  }

  lemma JoinLinked(mem: map<int, Header>, fl: FreeList, i: nat)
    requires Linked(mem, fl) && i + 1 < |fl|
    requires forall i, k :: 0 <= i < k < |fl| ==> fl[i].addr != fl[k].addr
    ensures var mem' := mem[fl[i].addr := Header(Succ(fl, i + 1), fl[i].size + fl[i + 1].size)];
            Linked(mem', Join(fl, i))
  {
    var fl' := Join(fl, i);
    var mem' := mem[fl[i].addr := Header(Succ(fl, i + 1), fl[i].size + fl[i + 1].size)];
    forall k | 0 <= k < |fl'| ensures HeaderAt(mem', fl', k) {
      if k != i {
        var l := if k < i then k else k + 1;
        assert fl'[k] == fl[l] && HeaderAt(mem, fl, l);
      }
    }
  }

  /** The header of the freed block after the first `if` of `free`. */
  function RightHeader(mem: map<int, Header>, q: int, bp: int): Header
    requires q in mem && bp in mem
  {
    if bp + mem[bp].size == q then Header(mem[q].ptr, mem[bp].size + mem[q].size) else Header(q, mem[bp].size)
  }

  /** The header of its predecessor after the second. */
  function LeftHeader(mem: map<int, Header>, p: int, bp: int): Header
    requires p in mem && bp in mem
  {
    if p + mem[p].size == bp then Header(mem[bp].ptr, mem[p].size + mem[bp].size) else Header(bp, mem[p].size)
  }

  lemma FreshAddress(base: int, fl: FreeList, j: nat, b: Block)
    requires Sorted(base, fl) && FitsAfter(fl, j, b)
    ensures forall i :: 0 <= i < |fl| ==> fl[i].addr != b.addr
  {
    forall i | 0 <= i < |fl| ensures fl[i].addr != b.addr {
      assert i < j ==> fl[i].addr < fl[j].addr;
      assert i > j + 1 ==> fl[j + 1].addr < fl[i].addr;
    }
  }

  /** After the first `if`, linking p to the freed block would complete the list. */
  lemma RightLinked(base: int, mem: map<int, Header>, fl: FreeList, j: nat, b: Block)
    requires Sorted(base, fl) && Linked(mem, fl) && FitsAfter(fl, j, b)
    requires b.addr in mem && mem[b.addr].size == b.size
    ensures fl[j].addr in mem && mem[fl[j].addr].ptr in mem
    ensures var fl2 := JoinIfTouching(Insert(fl, j, b), j + 1);
            var mem2 := mem[b.addr := RightHeader(mem, mem[fl[j].addr].ptr, b.addr)];
            && Sorted(base, fl2) && |fl2| > j + 1 && fl2[j] == fl[j] && fl2[j + 1].addr == b.addr
            && Linked(mem2[fl[j].addr := Header(b.addr, fl[j].size)], fl2)
  {
    var p, q, fl1 := fl[j].addr, Succ(fl, j), Insert(fl, j, b);
    assert HeaderAt(mem, fl, j) && HeaderAt(mem, fl, 0) && (j + 1 < |fl| ==> HeaderAt(mem, fl, j + 1));
    InsertSorted(base, fl, j, b);
    FreshAddress(base, fl, j, b);
    InsertLinked(mem, fl, j, b);
    var linked := Header(b.addr, fl[j].size);
    var mem1 := mem[b.addr := Header(q, b.size)][p := linked];
    assert fl1[j + 1] == b;
    if Touch(fl1, j + 1) {
      RightJoined(base, mem1, fl, fl1, j, b);
      var h := Header(Succ(fl, j + 1), b.size + fl[j + 1].size);
      assert RightHeader(mem, q, b.addr) == h;
      assert mem1[b.addr := h] == mem[b.addr := h][p := linked];
    } else {
      assert RightHeader(mem, q, b.addr) == Header(q, b.size);
    }
  }

  lemma RightJoined(base: int, mem1: map<int, Header>, fl: FreeList, fl1: FreeList, j: nat, b: Block)
    requires j < |fl| && fl1 == Insert(fl, j, b) && Sorted(base, fl1) && Linked(mem1, fl1) && Touch(fl1, j + 1)
    ensures j + 1 < |fl|
    ensures var h := Header(Succ(fl, j + 1), b.size + fl[j + 1].size); Linked(mem1[b.addr := h], Join(fl1, j + 1))
    ensures Sorted(base, Join(fl1, j + 1))
  {
    assert fl1[j + 1] == b && fl1[j + 2] == fl[j + 1] && Succ(fl1, j + 2) == Succ(fl, j + 1);
    JoinLinked(mem1, fl1, j + 1);
    JoinSorted(base, fl1, j + 1);
  }

  lemma MergeLinked(base: int, mem: map<int, Header>, fl: FreeList, j: nat, b: Block)
    requires Sorted(base, fl) && Linked(mem, fl) && FitsAfter(fl, j, b)
    requires b.addr in mem && mem[b.addr].size == b.size
    ensures fl[j].addr in mem && mem[fl[j].addr].ptr in mem
    ensures var mem1 := mem[b.addr := RightHeader(mem, mem[fl[j].addr].ptr, b.addr)];
            Linked(mem1[fl[j].addr := LeftHeader(mem1, fl[j].addr, b.addr)], Merge(fl, j, b))
  {
    RightLinked(base, mem, fl, j, b);
    var p := fl[j].addr;
    var mem1 := mem[b.addr := RightHeader(mem, mem[p].ptr, b.addr)];
    var mem2 := mem1[p := Header(b.addr, fl[j].size)];
    var fl2 := JoinIfTouching(Insert(fl, j, b), j + 1);
    assert HeaderAt(mem, fl, j) && HeaderAt(mem2, fl2, j + 1);
    if Touch(fl2, j) {
      JoinLinked(mem2, fl2, j);
      assert mem2[p := LeftHeader(mem1, p, b.addr)] == mem1[p := LeftHeader(mem1, p, b.addr)];
    }
  }

  // ------------------------------------------------------------------- live blocks

  /** Blocks returned by malloc and not yet freed, by header address. */
  type Live = map<int, int>

  ghost predicate LiveAt(mem: map<int, Header>, live: Live, base: int, a: int)
    requires a in live
  {
    base < a && live[a] > 0 && a in mem && mem[a].size == live[a]
  }

  /** Live blocks keep their size in their header and overlap no other live block. */
  ghost predicate LiveBlocks(mem: map<int, Header>, live: Live, base: int) {
    && (forall a :: a in live ==> LiveAt(mem, live, base, a))
    && (forall a, b :: a in live && b in live && a < b ==> a + live[a] <= b)
  }

  /** No live block overlaps a free one. */
  ghost predicate Apart(fl: FreeList, live: Live) {
    forall a, i :: a in live && 0 <= i < |fl| ==> Separate(fl[i], a, live[a])
  }

  predicate Separate(b: Block, a: int, size: int) {
    a + size <= b.addr || b.End() <= a
  }

  ghost predicate InLive(live: Live, u: int) {
    exists a :: a in live && a <= u < a + live[a]
  }

  /** Every unit obtained from sbrk is in a free or in a live block, and nothing else is. */
  ghost predicate Conserved(core: iset<int>, fl: FreeList, live: Live) {
    forall u :: Accounted(core, fl, live, u)
  }

  ghost predicate Accounted(core: iset<int>, fl: FreeList, live: Live, u: int) {
    u in core <==> InFree(fl, u) || InLive(live, u)
  }

  ghost predicate Backed(core: iset<int>, mem: map<int, Header>) {
    forall u {:trigger u in core} :: u in core ==> u in mem
  }

  /** The last entry below an address. */
  ghost function Place(base: int, fl: FreeList, a: int): (j: nat)
    requires Sorted(base, fl) && base < a
    ensures j < |fl| && fl[j].addr < a && (j + 1 < |fl| ==> a <= fl[j + 1].addr)
  {
    var last := |fl| - 1;
    if fl[last].addr < a then last else Place(base, fl[..last], a)
  }

  /** Address a lies between entry j and the next. */
  ghost predicate LiesAfter(fl: FreeList, j: nat, a: int) {
    j < |fl| && fl[j].addr < a && (j + 1 < |fl| ==> a < fl[j + 1].addr)
  }

  /** The two exit tests of the search loop of `free` hold at the right place and only there. */
  lemma SearchStops(base: int, fl: FreeList, bp: int, j: nat, i: nat)
    requires Sorted(base, fl) && LiesAfter(fl, j, bp) && i < |fl|
    ensures var p, q := fl[i].addr, Succ(fl, i);
            ((bp > p && bp < q) || (p >= q && (bp > p || bp < q))) <==> i == j
  {
    assert i < j ==> fl[i + 1].addr <= fl[j].addr;
    assert j + 1 < i ==> fl[j + 1].addr < fl[i].addr;
    assert j > 0 ==> fl[0].addr < fl[j].addr;
  }

  lemma LiveFitsAfter(base: int, fl: FreeList, mem: map<int, Header>, live: Live, a: int)
    requires Sorted(base, fl) && LiveBlocks(mem, live, base) && Apart(fl, live) && a in live
    ensures base < a && FitsAfter(fl, Place(base, fl, a), Block(a, live[a]))
    ensures forall i :: 0 <= i < |fl| ==> fl[i].addr != a
  {
    assert LiveAt(mem, live, base, a);
    var j := Place(base, fl, a);
    assert Separate(fl[j], a, live[a]);
    assert j + 1 < |fl| ==> Separate(fl[j + 1], a, live[a]);
    FreshAddress(base, fl, j, Block(a, live[a]));
  }

  /** A freed block moves from the live blocks to the free list. */
  lemma FreeKeepsApart(base: int, fl: FreeList, fl': FreeList, mem: map<int, Header>, live: Live, a: int)
    requires Sorted(base, fl) && Sorted(base, fl') && LiveBlocks(mem, live, base) && Apart(fl, live) && a in live
    requires forall u :: InFree(fl', u) <==> InFree(fl, u) || a <= u < a + live[a]
    ensures Apart(fl', live - {a})
  {
    forall c, i | c in live - {a} && 0 <= i < |fl'| ensures Separate(fl'[i], c, live[c]) {
      ApartFromUnits(base, fl, fl', mem, live, a, c, i);
    }
  }

  lemma LiveNotFree(fl: FreeList, live: Live, c: int, u: int)
    requires Apart(fl, live) && c in live && c <= u < c + live[c]
    ensures !InFree(fl, u)
  {
    assert forall k :: 0 <= k < |fl| ==> Separate(fl[k], c, live[c]);
  }

  /** If a free block overlapped a live one, they would share a unit. */
  lemma ApartFromUnits(base: int, fl: FreeList, fl': FreeList, mem: map<int, Header>, live: Live, a: int, c: int,
                       i: nat)
    requires Sorted(base, fl) && Sorted(base, fl') && LiveBlocks(mem, live, base) && Apart(fl, live)
    requires a in live && c in live && c != a && i < |fl'|
    requires forall u :: InFree(fl', u) <==> InFree(fl, u) || a <= u < a + live[a]
    ensures Separate(fl'[i], c, live[c])
  {
    assert LiveAt(mem, live, base, a) && LiveAt(mem, live, base, c);
    var u := if fl'[i].addr <= c then c else fl'[i].addr;
    if c <= u < c + live[c] {
      LiveNotFree(fl, live, c, u);
      assert !InFree(fl', u);
    }
  }

  // ------------------------------------------------------------------- the allocator

  /** What `free` does to memory. */
  function FreedMem(mem: map<int, Header>, p: int, bp: int): map<int, Header>
    requires p in mem && bp in mem && mem[p].ptr in mem
  {
    var mem1 := mem[bp := RightHeader(mem, mem[p].ptr, bp)];
    mem1[p := LeftHeader(mem1, p, bp)]
  }

  lemma FreeKeepsLive(base: int, mem: map<int, Header>, mem': map<int, Header>, fl: FreeList, live: Live, j: nat,
                      a: int)
    requires Sorted(base, fl) && LiveBlocks(mem, live, base) && Apart(fl, live) && j < |fl| && a in live
    requires forall c :: c in mem && c != a && c != fl[j].addr ==> c in mem' && mem'[c] == mem[c]
    ensures LiveBlocks(mem', live - {a}, base)
  {
    forall c | c in live - {a} ensures LiveAt(mem', live - {a}, base, c) {
      assert LiveAt(mem, live, base, c);
      assert Separate(fl[j], c, live[c]);
    }
  }

  lemma FreeConserves(core: iset<int>, fl: FreeList, fl': FreeList, live: Live, a: int)
    requires Conserved(core, fl, live) && a in live
    requires forall u :: InFree(fl', u) <==> InFree(fl, u) || a <= u < a + live[a]
    ensures Conserved(core, fl', live - {a})
  {
    forall u ensures Accounted(core, fl', live - {a}, u) {
      assert Accounted(core, fl, live, u);
      if InLive(live, u) && !(a <= u < a + live[a]) {
        var c :| c in live && c <= u < c + live[c];
        assert c in live - {a};
      }
      if InLive(live - {a}, u) {
        var c :| c in live - {a} && c <= u < c + (live - {a})[c];
        assert c in live && c <= u < c + live[c];
      }
    }
  }

  lemma MergeKeepsEntry(fl: FreeList, j: nat, b: Block)
    requires j < |fl|
    ensures j < |Merge(fl, j, b)| && Merge(fl, j, b)[j].addr == fl[j].addr
  {
    var fl1 := Insert(fl, j, b);
    assert fl1[j] == fl[j] && fl1[j + 1] == b;
    var fl2 := JoinIfTouching(fl1, j + 1);
    assert fl2[j] == fl[j] && fl2[j + 1].addr == b.addr;
  }

  /** After a merge some free block is at least as large as the one put in. */
  lemma MergeHasRoom(base: int, fl: FreeList, j: nat, b: Block)
    requires Sorted(base, fl) && j < |fl| && b.size >= 0
    ensures SomeFits(Merge(fl, j, b), b.size)
  {
    var fl1 := Insert(fl, j, b);
    assert fl1[j] == fl[j] && fl1[j + 1] == b && (j + 1 < |fl| ==> fl1[j + 2] == fl[j + 1]);
    var fl2 := JoinIfTouching(fl1, j + 1);
    assert fl2[j] == fl[j] && fl2[j + 1].size >= b.size;
    var fl3 := JoinIfTouching(fl2, j);
    if Touch(fl2, j) {
      assert fl3[j] == Block(fl[j].addr, fl[j].size + fl2[j + 1].size);
    } else {
      assert fl3[j + 1] == fl2[j + 1];
    }
  }

  /** Everything `free` preserves, on values. */
  lemma FreeCorrect(base: int, mem: map<int, Header>, fl: FreeList, live: Live, core: iset<int>, bp: int)
    returns (j: nat, fl': FreeList)
    requires Sorted(base, fl) && Gaps(fl, {}) && Linked(mem, fl)
    requires LiveBlocks(mem, live, base) && Apart(fl, live) && Conserved(core, fl, live) && bp in live
    ensures base < bp && bp in mem && LiesAfter(fl, j, bp)
    ensures fl[j].addr in mem && mem[fl[j].addr].ptr in mem
    ensures Sorted(base, fl') && Gaps(fl', {}) && Linked(FreedMem(mem, fl[j].addr, bp), fl')
    ensures j < |fl'| && fl'[j].addr == fl[j].addr
    ensures LiveBlocks(FreedMem(mem, fl[j].addr, bp), live - {bp}, base)
    ensures Apart(fl', live - {bp}) && Conserved(core, fl', live - {bp})
    ensures SomeFits(fl', live[bp])
  {
    var b := Block(bp, live[bp]);
    assert LiveAt(mem, live, base, bp);
    LiveFitsAfter(base, fl, mem, live, bp);
    j := Place(base, fl, bp);
    MergeLinked(base, mem, fl, j, b);
    MergeCorrect(base, fl, j, b);
    MergeKeepsEntry(fl, j, b);
    MergeHasRoom(base, fl, j, b);
    fl' := Merge(fl, j, b);
    FreeKeepsLive(base, mem, FreedMem(mem, fl[j].addr, bp), fl, live, j, bp);
    FreeKeepsApart(base, fl, fl', mem, live, bp);
    FreeConserves(core, fl, fl', live, bp);
  }

  // --------------------------------------------------------------------- morecore

  /** A region that sbrk may hand out: above base and not handed out before. */
  ghost predicate NewRegion(base: int, core: iset<int>, p: int, nu: int) {
    base < p && forall u :: Within(u, p, nu) ==> u !in core
  }

  predicate Within(u: int, p: int, nu: int) {
    p <= u < p + nu
  }

  ghost function Region(p: int, nu: int): iset<int> {
    iset u | Within(u, p, nu)
  }

  /** Zero-filled memory from sbrk, with the size of the new block stored at its start. */
  function Extended(mem: map<int, Header>, p: int, nu: int): map<int, Header> {
    (mem + map u | p <= u < p + nu && Within(u, p, nu) :: Header(0, 0))[p := Header(0, nu)]
  }

  lemma ExtendKeepsBlocks(base: int, mem: map<int, Header>, fl: FreeList, live: Live, core: iset<int>, p: int, nu: int)
    requires Sorted(base, fl) && Linked(mem, fl) && NewRegion(base, core, p, nu) && nu > 0
    requires LiveBlocks(mem, live, base) && Conserved(core, fl, live)
    ensures p !in live && Linked(Extended(mem, p, nu), fl)
    ensures forall a :: a in live ==> LiveAt(Extended(mem, p, nu), live, base, a)
  {
    var mem' := Extended(mem, p, nu);
    forall i | 0 <= i < |fl| ensures HeaderAt(mem', fl, i) {
      assert HeaderAt(mem, fl, i);
      assert i > 0 ==> InFree(fl, fl[i].addr) && Accounted(core, fl, live, fl[i].addr);
    }
    forall a | a in live ensures a != p && LiveAt(mem', live, base, a) {
      assert LiveAt(mem, live, base, a);
      assert InLive(live, a) && Accounted(core, fl, live, a);
    }
  }

  lemma ExtendKeepsApart(base: int, mem: map<int, Header>, fl: FreeList, live: Live, core: iset<int>, p: int, nu: int)
    requires Sorted(base, fl) && NewRegion(base, core, p, nu) && nu > 0
    requires LiveBlocks(mem, live, base) && Apart(fl, live) && Conserved(core, fl, live) && p !in live
    ensures Apart(fl, live[p := nu])
    ensures forall a :: a in live ==> a + live[a] <= p || p + nu <= a
  {
    forall i | 0 <= i < |fl| ensures Separate(fl[i], p, nu) {
      var u := if fl[i].addr <= p then p else fl[i].addr;
      assert fl[i].addr <= u < fl[i].End() ==> InFree(fl, u);
      assert Accounted(core, fl, live, u);
    }
    var live' := live[p := nu];
    forall a, i | a in live' && 0 <= i < |fl| ensures Separate(fl[i], a, live'[a]) {
      assert a != p ==> Separate(fl[i], a, live[a]);
    }
    forall a | a in live ensures a + live[a] <= p || p + nu <= a {
      var u := if a <= p then p else a;
      assert LiveAt(mem, live, base, a);
      assert a <= u < a + live[a] ==> InLive(live, u);
      assert Accounted(core, fl, live, u);
    }
  }

  lemma ExtendConserves(core: iset<int>, fl: FreeList, live: Live, p: int, nu: int)
    requires Conserved(core, fl, live) && p !in live
    ensures Conserved(core + Region(p, nu), fl, live[p := nu])
  {
    var core', live' := core + Region(p, nu), live[p := nu];
    forall u ensures Accounted(core', fl, live', u) {
      assert Accounted(core, fl, live, u);
      LiveAdded(live, p, nu, u);
    }
  }

  /** Memory fresh from sbrk is one more live block, about to be freed. */
  lemma ExtendCorrect(base: int, mem: map<int, Header>, fl: FreeList, live: Live, core: iset<int>, p: int, nu: int)
    requires Sorted(base, fl) && Linked(mem, fl) && NewRegion(base, core, p, nu) && nu > 0
    requires LiveBlocks(mem, live, base) && Apart(fl, live) && Conserved(core, fl, live)
    ensures p !in live && Linked(Extended(mem, p, nu), fl)
    ensures LiveBlocks(Extended(mem, p, nu), live[p := nu], base) && Apart(fl, live[p := nu])
    ensures Conserved(core + Region(p, nu), fl, live[p := nu])
  {
    ExtendKeepsBlocks(base, mem, fl, live, core, p, nu);
    ExtendKeepsApart(base, mem, fl, live, core, p, nu);
    ExtendConserves(core, fl, live, p, nu);
    var mem', live' := Extended(mem, p, nu), live[p := nu];
    forall a | a in live' ensures LiveAt(mem', live', base, a) {
      assert a != p ==> LiveAt(mem', live, base, a);
    }
  }

  // ------------------------------------------------------------------ taking a block

  function Dropped(fl: FreeList, i: nat): FreeList
    requires i < |fl|
  {
    fl[..i] + fl[i + 1..]
  }

  function Shrunk(fl: FreeList, i: nat, nunits: int): FreeList
    requires i < |fl|
  {
    fl[i := Block(fl[i].addr, fl[i].size - nunits)]
  }

  /** The free list once the last `nunits` units of entry i are taken. */
  function Carved(fl: FreeList, i: nat, nunits: int): FreeList
    requires i < |fl|
  {
    if fl[i].size == nunits then Dropped(fl, i) else Shrunk(fl, i, nunits)
  }

  function CarvedAt(fl: FreeList, i: nat, nunits: int): int
    requires i < |fl|
  {
    fl[i].End() - nunits
  }

  lemma DropSorted(base: int, fl: FreeList, i: nat)
    requires Sorted(base, fl) && Gaps(fl, {}) && 0 < i < |fl|
    ensures Sorted(base, Dropped(fl, i)) && Gaps(Dropped(fl, i), {})
  {
    var fl' := Dropped(fl, i);
    forall k, l | 0 <= k < l < |fl'| ensures fl'[k].addr < fl'[l].addr && fl'[k].End() <= fl'[l].addr {
      assert fl'[k] == fl[if k < i then k else k + 1];
      assert fl'[l] == fl[if l < i then l else l + 1];
    }
    forall k | 0 <= k < |fl'| - 1 ensures Gap(fl', k) {
      DropGap(base, fl, i, k);
    }
  }

  lemma DropGap(base: int, fl: FreeList, i: nat, k: nat)
    requires Sorted(base, fl) && Gaps(fl, {}) && 0 < i < |fl| && k + 1 < |Dropped(fl, i)|
    ensures Gap(Dropped(fl, i), k)
  {
    if k == i - 1 {
      assert Gap(fl, i - 1) && fl[i].addr < fl[i + 1].addr;
    } else {
      assert Gap(fl, if k < i then k else k + 1);
    }
  }

  lemma ShrinkSorted(base: int, fl: FreeList, i: nat, nunits: int)
    requires Sorted(base, fl) && Gaps(fl, {}) && 0 < i < |fl| && 0 < nunits < fl[i].size
    ensures Sorted(base, Shrunk(fl, i, nunits)) && Gaps(Shrunk(fl, i, nunits), {})
  {
    var fl' := Shrunk(fl, i, nunits);
    forall k | 0 <= k < |fl'| - 1 ensures Gap(fl', k) {
      assert Gap(fl, k);
    }
  }

  lemma FreeAt(fl: FreeList, i: nat, u: int)
    requires i < |fl| && fl[i].addr <= u < fl[i].End()
    ensures InFree(fl, u)
  {
  }

  lemma DropCovers(fl: FreeList, i: nat, u: int)
    requires 0 < i < |fl|
    ensures InFree(fl, u) <==> InFree(Dropped(fl, i), u) || Within(u, fl[i].addr, fl[i].size)
  {
    var fl' := Dropped(fl, i);
    if InFree(fl, u) {
      var k :| 0 <= k < |fl| && fl[k].addr <= u < fl[k].End();
      if k < i {
        assert fl'[k] == fl[k];
        FreeAt(fl', k, u);
      } else if k > i {
        assert fl'[k - 1] == fl[k];
        FreeAt(fl', k - 1, u);
      }
    }
    if InFree(fl', u) {
      var l :| 0 <= l < |fl'| && fl'[l].addr <= u < fl'[l].End();
      var k := if l < i then l else l + 1;
      assert fl[k] == fl'[l];
      FreeAt(fl, k, u);
    }
    if Within(u, fl[i].addr, fl[i].size) {
      FreeAt(fl, i, u);
    }
  }

  lemma ShrinkCovers(base: int, fl: FreeList, i: nat, nunits: int, u: int)
    requires Sorted(base, fl) && 0 < i < |fl| && 0 < nunits < fl[i].size
    ensures InFree(fl, u) <==> InFree(Shrunk(fl, i, nunits), u) || Within(u, fl[i].End() - nunits, nunits)
  {
    var fl' := Shrunk(fl, i, nunits);
    if InFree(fl, u) {
      var k :| 0 <= k < |fl| && fl[k].addr <= u < fl[k].End();
      assert fl'[k].addr <= u < fl'[k].End() || k == i;
    }
    if InFree(fl', u) {
      var l :| 0 <= l < |fl'| && fl'[l].addr <= u < fl'[l].End();
      assert fl[l].addr <= u < fl[l].End();
    }
    assert Within(u, fl[i].End() - nunits, nunits) ==> fl[i].addr <= u < fl[i].End();
  }

  lemma CarveSorted(base: int, fl: FreeList, i: nat, nunits: int)
    requires Sorted(base, fl) && Gaps(fl, {}) && 0 < i < |fl| && 0 < nunits <= fl[i].size
    ensures Sorted(base, Carved(fl, i, nunits)) && Gaps(Carved(fl, i, nunits), {})
  {
    if fl[i].size == nunits {
      DropSorted(base, fl, i);
    } else {
      ShrinkSorted(base, fl, i, nunits);
    }
  }

  /** Taking a block removes exactly its units from the free list. */
  lemma CarveCovers(base: int, fl: FreeList, i: nat, nunits: int, u: int)
    requires Sorted(base, fl) && 0 < i < |fl| && 0 < nunits <= fl[i].size
    ensures InFree(fl, u) <==> InFree(Carved(fl, i, nunits), u) || Within(u, CarvedAt(fl, i, nunits), nunits)
  {
    if fl[i].size == nunits {
      DropCovers(fl, i, u);
    } else {
      ShrinkCovers(base, fl, i, nunits, u);
    }
  }

  /** The header updates of `malloc`. */
  function CarvedMem(mem: map<int, Header>, prevp: int, p: int, nunits: int): map<int, Header>
    requires prevp in mem && p in mem && p + mem[p].size - nunits in mem
  {
    if mem[p].size == nunits then mem[prevp := Header(mem[p].ptr, mem[prevp].size)]
    else
      var r := p + mem[p].size - nunits;
      mem[p := Header(mem[p].ptr, mem[p].size - nunits)][r := Header(mem[r].ptr, nunits)]
  }

  lemma DropLinked(base: int, mem: map<int, Header>, fl: FreeList, i: nat)
    requires Sorted(base, fl) && Linked(mem, fl) && 0 < i < |fl|
    ensures Linked(mem[fl[i - 1].addr := Header(Succ(fl, i), fl[i - 1].size)], Dropped(fl, i))
  {
    var fl', mem' := Dropped(fl, i), mem[fl[i - 1].addr := Header(Succ(fl, i), fl[i - 1].size)];
    forall l | 0 <= l < |fl'| ensures HeaderAt(mem', fl', l) {
      var k := if l >= i then l + 1 else l;
      assert fl'[l] == fl[k] && HeaderAt(mem, fl, k);
    }
  }

  lemma ShrinkLinked(base: int, mem: map<int, Header>, fl: FreeList, i: nat, nunits: int, h: Header)
    requires Sorted(base, fl) && Linked(mem, fl) && 0 < i < |fl| && 0 < nunits < fl[i].size
    ensures Linked(mem[fl[i].addr := Header(Succ(fl, i), fl[i].size - nunits)][fl[i].End() - nunits := h],
                   Shrunk(fl, i, nunits))
  {
    var fl' := Shrunk(fl, i, nunits);
    var mem' := mem[fl[i].addr := Header(Succ(fl, i), fl[i].size - nunits)][fl[i].End() - nunits := h];
    forall l | 0 <= l < |fl'| ensures HeaderAt(mem', fl', l) {
      assert HeaderAt(mem, fl, l);
      assert l > i ==> fl[i].End() <= fl[l].addr;
    }
  }

  lemma CarveLinked(base: int, mem: map<int, Header>, fl: FreeList, i: nat, nunits: int)
    requires Sorted(base, fl) && Linked(mem, fl) && 0 < i < |fl| && 0 < nunits <= fl[i].size
    requires CarvedAt(fl, i, nunits) in mem
    ensures fl[i].addr in mem && fl[i - 1].addr in mem && mem[fl[i].addr].size == fl[i].size
    ensures Linked(CarvedMem(mem, fl[i - 1].addr, fl[i].addr, nunits), Carved(fl, i, nunits))
  {
    assert HeaderAt(mem, fl, i) && HeaderAt(mem, fl, i - 1);
    if fl[i].size == nunits {
      DropLinked(base, mem, fl, i);
    } else {
      ShrinkLinked(base, mem, fl, i, nunits, Header(mem[CarvedAt(fl, i, nunits)].ptr, nunits));
    }
  }

  lemma CarveKeepsLive(base: int, mem: map<int, Header>, fl: FreeList, live: Live, i: nat, nunits: int)
    requires Sorted(base, fl) && Linked(mem, fl) && 0 < i < |fl| && 0 < nunits <= fl[i].size
    requires LiveBlocks(mem, live, base) && Apart(fl, live) && CarvedAt(fl, i, nunits) in mem
    ensures fl[i].addr in mem && fl[i - 1].addr in mem && mem[fl[i].addr].size == fl[i].size
    ensures var r := CarvedAt(fl, i, nunits);
            r !in live && LiveBlocks(CarvedMem(mem, fl[i - 1].addr, fl[i].addr, nunits), live[r := nunits], base)
  {
    assert HeaderAt(mem, fl, i) && HeaderAt(mem, fl, i - 1);
    var r := CarvedAt(fl, i, nunits);
    var mem', live' := CarvedMem(mem, fl[i - 1].addr, fl[i].addr, nunits), live[r := nunits];
    forall c | c in live ensures c != r && LiveAt(mem', live', base, c) && (c + live[c] <= r || r + nunits <= c) {
      assert LiveAt(mem, live, base, c);
      assert Separate(fl[i], c, live[c]) && Separate(fl[i - 1], c, live[c]);
    }
    assert LiveAt(mem', live', base, r);
  }

  lemma CarveKeepsApart(base: int, fl: FreeList, live: Live, i: nat, nunits: int)
    requires Sorted(base, fl) && 0 < i < |fl| && 0 < nunits <= fl[i].size && Apart(fl, live)
    ensures Apart(Carved(fl, i, nunits), live[CarvedAt(fl, i, nunits) := nunits])
  {
    var r, fl' := CarvedAt(fl, i, nunits), Carved(fl, i, nunits);
    var live' := live[r := nunits];
    forall a, l | a in live' && 0 <= l < |fl'| ensures Separate(fl'[l], a, live'[a]) {
      var k := if fl[i].size == nunits && l >= i then l + 1 else l;
      assert fl'[l].addr == fl[k].addr && fl'[l].End() <= fl[k].End();
      if a == r {
        assert k < i ==> fl[k].End() <= fl[i].addr;
        assert k > i ==> fl[i].End() <= fl[k].addr;
      } else {
        assert Separate(fl[k], a, live[a]);
      }
    }
  }

  lemma CarveConserves(base: int, core: iset<int>, fl: FreeList, live: Live, i: nat, nunits: int)
    requires Sorted(base, fl) && 0 < i < |fl| && 0 < nunits <= fl[i].size
    requires Conserved(core, fl, live) && CarvedAt(fl, i, nunits) !in live
    ensures Conserved(core, Carved(fl, i, nunits), live[CarvedAt(fl, i, nunits) := nunits])
  {
    var r, fl' := CarvedAt(fl, i, nunits), Carved(fl, i, nunits);
    var live' := live[r := nunits];
    forall u ensures Accounted(core, fl', live', u) {
      assert Accounted(core, fl, live, u);
      CarveCovers(base, fl, i, nunits, u);
      LiveAdded(live, r, nunits, u);
    }
  }

  lemma LiveAdded(live: Live, r: int, nunits: int, u: int)
    requires r !in live
    ensures InLive(live[r := nunits], u) <==> InLive(live, u) || Within(u, r, nunits)
  {
    var live' := live[r := nunits];
    if InLive(live, u) {
      var a :| a in live && a <= u < a + live[a];
      assert a in live' && a <= u < a + live'[a];
    }
    assert r in live' && live'[r] == nunits;
  }

  /** Everything that taking a block preserves, on values. */
  lemma CarveCorrect(base: int, mem: map<int, Header>, fl: FreeList, live: Live, core: iset<int>, i: nat, nunits: int)
    requires Sorted(base, fl) && Gaps(fl, {}) && Linked(mem, fl) && 0 < i < |fl| && 0 < nunits <= fl[i].size
    requires LiveBlocks(mem, live, base) && Apart(fl, live) && Conserved(core, fl, live)
    requires Backed(core, mem)
    ensures var r, fl' := CarvedAt(fl, i, nunits), Carved(fl, i, nunits);
            var live' := live[r := nunits];
            && fl[i].addr in mem && fl[i - 1].addr in mem && mem[fl[i].addr].size == fl[i].size && r in mem
            && r !in live
            && var mem' := CarvedMem(mem, fl[i - 1].addr, fl[i].addr, nunits);
            && Sorted(base, fl') && Gaps(fl', {}) && Linked(mem', fl') && fl'[i - 1].addr == fl[i - 1].addr
            && LiveBlocks(mem', live', base) && Apart(fl', live') && Conserved(core, fl', live')
  {
    assert InFree(fl, CarvedAt(fl, i, nunits)) && Accounted(core, fl, live, CarvedAt(fl, i, nunits));
    CarveSorted(base, fl, i, nunits);
    CarveLinked(base, mem, fl, i, nunits);
    CarveKeepsLive(base, mem, fl, live, i, nunits);
    CarveKeepsApart(base, fl, live, i, nunits);
    CarveConserves(base, core, fl, live, i, nunits);
  }

  /** c entries after entry f, going round. */
  function Turn(f: nat, c: nat, n: nat): nat
    requires f < n && c <= n
  {
    if f + c < n then f + c else f + c - n
  }

  /** A full turn passes every entry. */
  lemma TurnReaches(f: nat, n: nat, i: nat) returns (c: nat)
    requires f < n && i < n
    ensures 1 <= c <= n && Turn(f, c, n) == i
  {
    c := if i > f then i - f else i + n - f;
  }

  /** The size of a block for a request, as the source computes it on 32-bit unsigned integers. */
  function Units(nbytes: uint): nat {
    (nbytes + UNIT - 1) % UINT / UNIT + 1
  }

  /** The units after the header hold the request exactly when the rounding does not wrap around. */
  lemma UnitsSuffice(nbytes: uint)
    ensures (Units(nbytes) - 1) * UNIT >= nbytes <==> nbytes <= UINT - UNIT
  {
  }

  /** A 32-bit value passed to the int parameter of sbrk. */
  function AsInt(x: nat): int {
    if x % UINT < UINT / 2 then x % UINT else x % UINT - UINT
  }

  /** morecore asks sbrk for what it means exactly when the request is below 2^31 bytes. */
  lemma RequestFits(nunits: nat)
    requires nunits <= UINT / UNIT
    ensures AsInt(Request(nunits) * UNIT) == Request(nunits) * UNIT <==> nunits < UINT / 2 / UNIT
  {
  }

  /** The search loop of `malloc` over any circular list whose first entry is too small. */
  method Search(mem: map<int, Header>, freep: int, nunits: nat, ghost fl: FreeList, ghost at: nat)
    returns (found: bool, prevp: int, p: int, ghost c: nat)
    requires Linked(mem, fl) && at < |fl| && freep == fl[at].addr && fl[0].size < nunits
    requires forall i :: 0 <= i < |fl| && fl[i].addr == freep ==> i == at
    ensures found <==> SomeFits(fl, nunits)
    ensures found ==>
      && 1 <= c <= |fl| && Turn(at, c, |fl|) > 0 && fl[Turn(at, c, |fl|)].size >= nunits
      && p == fl[Turn(at, c, |fl|)].addr && prevp == fl[Turn(at, c, |fl|) - 1].addr
      && forall d :: 1 <= d < c ==> TooSmall(fl, at, d, nunits)
  {
    prevp := freep;
    assert HeaderAt(mem, fl, at);
    p := mem[prevp].ptr;
    c := 1;
    ghost var i := Turn(at, 1, |fl|);
    while true
      invariant 1 <= c <= |fl| && i == Turn(at, c, |fl|)
      invariant p == fl[i].addr && prevp == fl[if i > 0 then i - 1 else |fl| - 1].addr
      invariant forall d :: 1 <= d < c ==> TooSmall(fl, at, d, nunits)
      decreases |fl| - c
    {
      assert HeaderAt(mem, fl, i);
      if mem[p].size >= nunits {
        return true, prevp, p, c;
      }
      if p == freep {
        NothingFits(fl, at, c, nunits);
        return false, prevp, p, c;
      }
      assert TooSmall(fl, at, c, nunits);
      prevp, p := p, mem[p].ptr;
      c := c + 1;
      i := Turn(at, c, |fl|);
    }
  }

  class Heap {
    const base: int                // &base
    var mem: map<int, Header>
    var freep: int                 // 0 before the first malloc
    ghost var fl: FreeList         // the free blocks by ascending address
    ghost var at: nat              // the entry freep points to
    ghost var live: Live
    ghost var core: iset<int>      // units obtained from sbrk

    ghost predicate Shape()
      reads this
    {
      && 0 < base && Sorted(base, fl) && Gaps(fl, {}) && Linked(mem, fl)
      && at < |fl| && freep == fl[at].addr
    }

    ghost predicate Valid()
      reads this
    {
      && 0 < base && base in mem && Backed(core, mem)
      && LiveBlocks(mem, live, base) && Apart(fl, live) && Conserved(core, fl, live)
      && if freep == 0 then fl == [] && live == map[] else Shape()
    }

    constructor (base: int)
      requires 0 < base
      ensures Valid() && this.base == base && fl == [] && live == map[] && core == iset{}
    {
      this.base := base;
      mem := map[base := Header(0, 0)];
      freep := 0;
      fl, at, live, core := [], 0, map[], iset{};
    }

    /** The search loop of `free`: the entry after which the block belongs. */
    method FindPlace(bp: int, ghost j: nat) returns (p: int)
      requires Shape() && LiesAfter(fl, j, bp)
      ensures p == fl[j].addr
    {
      p := freep;
      ghost var i: nat := at;
      while true
        invariant i < |fl| && p == fl[i].addr
        decreases if i <= j then j - i else j + |fl| - i
      {
        assert HeaderAt(mem, fl, i);
        SearchStops(base, fl, bp, j, i);
        if bp > p && bp < mem[p].ptr {
          break;
        }
        if p >= mem[p].ptr && (bp > p || bp < mem[p].ptr) {
          break;
        }
        p := mem[p].ptr;
        i := if i + 1 < |fl| then i + 1 else 0;
      }
    }

    /** The two `if`s of `free`. */
    method Splice(p: int, bp: int)
      requires p in mem && bp in mem && mem[p].ptr in mem
      modifies this`mem
      ensures mem == FreedMem(old(mem), p, bp)
    {
      var q := mem[p].ptr;
      if bp + mem[bp].size == q {
        mem := mem[bp := Header(mem[q].ptr, mem[bp].size + mem[q].size)];
      } else {
        mem := mem[bp := Header(q, mem[bp].size)];
      }
      if p + mem[p].size == bp {
        mem := mem[p := Header(mem[bp].ptr, mem[p].size + mem[bp].size)];
      } else {
        mem := mem[p := Header(bp, mem[p].size)];
      }
    }

    /**
     `free`.  The units of the block become free again, and the list is left ordered with
     no two neighbours touching, which leaves only one way to cover the free units.
     */
    method Free(ap: int)
      requires Valid() && ap - 1 in live
      modifies this`mem, this`freep, this`fl, this`at, this`live
      ensures Valid() && freep != 0 && live == old(live) - {ap - 1} && SomeFits(fl, old(live)[ap - 1])
      ensures at < |old(fl)| && LiesAfter(old(fl), at, ap - 1) && freep == old(fl)[at].addr
    {
      var bp := ap - 1;
      ghost var j, fl' := FreeCorrect(base, mem, fl, live, core, bp);
      var p := FindPlace(bp, j);
      Splice(p, bp);
      freep := p;
      fl, at, live := fl', j, live - {bp};
    }

    /** The block that `morecore` makes of memory fresh from sbrk. */
    method AddCore(p: int, nu: nat)
      requires Valid() && freep != 0 && nu > 0 && NewRegion(base, core, p, nu)
      modifies this`mem, this`live, this`core
      ensures Valid() && p !in old(live) && live == old(live)[p := nu] && core == old(core) + Region(p, nu)
    {
      ExtendCorrect(base, mem, fl, live, core, p, nu);
      mem := Extended(mem, p, nu);
      live, core := live[p := nu], core + Region(p, nu);
    }

    /** `morecore`; `brk` is what sbrk answers, in units. */
    method Morecore(nunits: nat, brk: Option<int>) returns (ok: bool)
      requires Valid() && freep != 0 && nunits > 0
      requires brk.Some? ==> NewRegion(base, core, brk.value, Request(nunits))
      modifies this`mem, this`freep, this`fl, this`at, this`live, this`core
      ensures Valid() && freep != 0 && ok == brk.Some? && live == old(live)
      ensures !ok ==> mem == old(mem) && freep == old(freep) && fl == old(fl) && at == old(at) && core == old(core)
      ensures ok ==> core == old(core) + Region(brk.value, Request(nunits)) && SomeFits(fl, nunits)
      ensures ok ==> forall u :: u in core <==>
        u in old(core) || brk.value <= u < brk.value + (if nunits < 4096 then 4096 else nunits)
    {
      var nu := nunits;
      if nu < MORECORE {
        nu := MORECORE;
      }
      if brk.None? {
        return false;
      }
      AddCore(brk.value, nu);
      Free(brk.value + 1);
      assert live == old(live);
      return true;
    }

    /** The header updates of `malloc`, and the address of the block taken. */
    method Cut(prevp: int, p: int, nunits: nat) returns (q: int)
      requires prevp in mem && p in mem && p + mem[p].size - nunits in mem
      modifies this`mem
      ensures mem == CarvedMem(old(mem), prevp, p, nunits) && q == p + old(mem)[p].size - nunits
    {
      if mem[p].size == nunits {
        mem := mem[prevp := Header(mem[p].ptr, mem[prevp].size)];
        return p;
      }
      mem := mem[p := Header(mem[p].ptr, mem[p].size - nunits)];
      q := p + mem[p].size;
      mem := mem[q := Header(mem[q].ptr, nunits)];
    }

    /** The body of the search loop of `malloc` once a block is large enough. */
    method Take(prevp: int, p: int, nunits: nat, ghost i: nat) returns (r: int)
      requires Valid() && freep != 0 && 0 < i < |fl| && 0 < nunits <= fl[i].size
      requires p == fl[i].addr && prevp == fl[i - 1].addr
      modifies this`mem, this`freep, this`fl, this`at, this`live
      ensures Valid() && freep != 0 && r - 1 == CarvedAt(old(fl), i, nunits)
      ensures r - 1 !in old(live) && live == old(live)[r - 1 := nunits]
      ensures fl == Carved(old(fl), i, nunits) && at == i - 1
      ensures freep == prevp && r - 1 + nunits == p + old(fl)[i].size
    {
      CarveCorrect(base, mem, fl, live, core, i, nunits);
      var q := Cut(prevp, p, nunits);
      freep := prevp;
      fl, at, live := Carved(fl, i, nunits), i - 1, live[q := nunits];
      return q + 1;
    }

    /** First call: the list holds `base` alone. */
    method Init()
      requires Valid() && freep == 0
      modifies this`mem, this`freep, this`fl, this`at
      ensures Valid() && freep != 0 && fl == [Block(base, 0)] && at == 0
    {
      mem := mem[base := Header(base, 0)];
      freep := base;
      fl, at := [Block(base, 0)], 0;
      assert HeaderAt(mem, fl, 0);
      forall u ensures Accounted(core, fl, live, u) {
        assert Accounted(core, [], live, u);
      }
    }

    /**
     The search loop of `malloc`, from freep round to freep: the first block that is large
     enough and its predecessor.
     */
    method Scan(nunits: nat) returns (found: bool, prevp: int, p: int, ghost c: nat)
      requires Shape() && nunits > 0
      ensures found <==> SomeFits(fl, nunits)
      ensures found ==>
        && 1 <= c <= |fl| && Turn(at, c, |fl|) > 0 && fl[Turn(at, c, |fl|)].size >= nunits
        && p == fl[Turn(at, c, |fl|)].addr && prevp == fl[Turn(at, c, |fl|) - 1].addr
        && forall d :: 1 <= d < c ==> TooSmall(fl, at, d, nunits)
    {
      forall i | 0 <= i < |fl| && fl[i].addr == freep ensures i == at {
        SameEntry(base, fl, i, at);
      }
      found, prevp, p, c := Search(mem, freep, nunits, fl, at);
    }

    /** `malloc` once the list is set up: search, and search again after `morecore`. */
    method SearchOrGrow(nunits: nat, brk: Option<int>) returns (found: bool, prevp: int, p: int, ghost i: nat)
      requires Valid() && freep != 0 && nunits > 0
      requires brk.Some? ==> NewRegion(base, core, brk.value, Request(nunits))
      modifies this`mem, this`freep, this`fl, this`at, this`live, this`core
      ensures Valid() && freep != 0 && live == old(live)
      ensures found <==> brk.Some? || SomeFits(old(fl), nunits)
      ensures found ==>
        0 < i < |fl| && fl[i].size >= nunits && p == fl[i].addr && prevp == fl[i - 1].addr
      ensures found ==> FirstFit(fl, at, i, nunits)
      ensures SomeFits(old(fl), nunits) ==> found && fl == old(fl) && at == old(at)
      ensures core == if brk.Some? && !SomeFits(old(fl), nunits)
                      then old(core) + Region(brk.value, Request(nunits)) else old(core)
    {
      ghost var c: nat;
      found, prevp, p, c := Scan(nunits);
      if !found {
        var ok := Morecore(nunits, brk);
        if !ok {
          i := 0;
          return;
        }
        found, prevp, p, c := Scan(nunits);
      }
      i := Turn(at, c, |fl|);
      FirstOnTheWay(fl, at, c, nunits);
    }

    /** `malloc` of so many units. */
    method Allocate(nunits: nat, brk: Option<int>) returns (r: Option<int>)
      requires Valid() && nunits > 0
      requires brk.Some? ==> NewRegion(base, core, brk.value, Request(nunits))
      modifies this`mem, this`freep, this`fl, this`at, this`live, this`core
      ensures Valid()
      ensures r.None? <==> brk.None? && !SomeFits(old(fl), nunits)
      ensures r.None? ==> live == old(live)
      ensures r.Some? ==> r.value - 1 !in old(live) && live == old(live)[r.value - 1 := nunits]
      ensures SomeFits(old(fl), nunits) ==> r.Some? && TakesFirst(old(fl), old(at), freep, at, r.value, nunits)
      ensures core == if brk.Some? && !SomeFits(old(fl), nunits)
                      then old(core) + Region(brk.value, Request(nunits)) else old(core)
    {
      if freep == 0 {
        Init();
        assert !SomeFits(fl, nunits) && !SomeFits(old(fl), nunits);
      }
      ghost var i: nat;
      var found, prevp, p;
      found, prevp, p, i := SearchOrGrow(nunits, brk);
      if !found {
        return None;
      }
      var q := Take(prevp, p, nunits, i);
      return Some(q);
    }

    /**
     `malloc`; `brk` is what sbrk would answer.  A block of exactly the requested units
     that overlaps nothing live or free; sbrk is called only when no free block is large
     enough, and the search that follows it always succeeds.
     */
    method Malloc(nbytes: uint, brk: Option<int>) returns (r: Option<int>)
      requires Valid()
      requires brk.Some? ==> NewRegion(base, core, brk.value, Request(Units(nbytes)))
      modifies this`mem, this`freep, this`fl, this`at, this`live, this`core
      ensures Valid()
      ensures r.None? <==> brk.None? && !SomeFits(old(fl), Units(nbytes))
      ensures r.None? ==> live == old(live)
      ensures r.Some? ==> r.value - 1 !in old(live) && live == old(live)[r.value - 1 := Units(nbytes)]
      ensures r.Some? && nbytes <= UINT - UNIT ==> (live[r.value - 1] - 1) * UNIT >= nbytes
      ensures r.Some? ==> live[r.value - 1] == (nbytes + 7) % 0x1_0000_0000 / 8 + 1
      ensures SomeFits(old(fl), Units(nbytes)) ==>
        r.Some? && TakesFirst(old(fl), old(at), freep, at, r.value, Units(nbytes))
      ensures core == if brk.Some? && !SomeFits(old(fl), Units(nbytes))
                      then old(core) + Region(brk.value, Request(Units(nbytes))) else old(core)
    {
      UnitsSuffice(nbytes);
      r := Allocate(Units(nbytes), brk);
    }

    /** A program may write anywhere in the blocks it owns, past their headers. */
    method UserWrite(a: int, u: int, h: Header)
      requires Valid() && a in live && a < u < a + live[a]
      modifies this`mem
      ensures Valid() && mem == old(mem)[u := h]
    {
      WriteKeepsHeaders(base, mem, fl, live, a, u, h);
      mem := mem[u := h];
    }
  }

  lemma WriteKeepsHeaders(base: int, mem: map<int, Header>, fl: FreeList, live: Live, a: int, u: int, h: Header)
    requires LiveBlocks(mem, live, base) && Apart(fl, live) && a in live && a < u < a + live[a]
    requires forall i :: 0 <= i < |fl| ==> fl[i].size >= 0
    ensures LiveBlocks(mem[u := h], live, base)
    ensures Linked(mem, fl) ==> Linked(mem[u := h], fl)
  {
    var mem' := mem[u := h];
    assert LiveAt(mem, live, base, a);
    forall c | c in live ensures LiveAt(mem', live, base, c) {
      assert LiveAt(mem, live, base, c);
    }
    if Linked(mem, fl) {
      forall i | 0 <= i < |fl| ensures HeaderAt(mem', fl, i) {
        assert HeaderAt(mem, fl, i) && Separate(fl[i], a, live[a]);
      }
    }
  }

  /** When the search comes back to freep it has tried every block. */
  lemma NothingFits(fl: FreeList, f: nat, c: nat, nunits: int)
    requires f < |fl| && 1 <= c <= |fl| && fl[Turn(f, c, |fl|)].size < nunits
    requires forall d :: 1 <= d < c ==> TooSmall(fl, f, d, nunits)
    requires Turn(f, c, |fl|) == f
    ensures !SomeFits(fl, nunits)
  {
    forall i | 0 <= i < |fl| ensures fl[i].size < nunits {
      var d := TurnReaches(f, |fl|, i);
      assert d < c ==> TooSmall(fl, f, d, nunits);
    }
  }

  /** The d-th entry after entry f is too small. */
  ghost predicate TooSmall(fl: FreeList, f: nat, d: nat, nunits: int)
    requires f < |fl| && d <= |fl|
  {
    fl[Turn(f, d, |fl|)].size < nunits
  }

  lemma SameEntry(base: int, fl: FreeList, i: nat, j: nat)
    requires Sorted(base, fl) && i < |fl| && j < |fl| && fl[i].addr == fl[j].addr
    ensures i == j
  {
  }

  /** Entry i is the first that is large enough on the way round from the entry after f. */
  ghost predicate FirstFit(fl: FreeList, f: nat, i: nat, nunits: int) {
    && f < |fl| && i < |fl| && fl[i].size >= nunits
    && forall k :: 0 <= k < |fl| && fl[k].size >= nunits && k != i ==>
         if f < i then k <= f || k > i else i < k <= f
  }

  /** The tail of the first free block that is large enough is taken, and freep is the entry before it. */
  ghost predicate TakesFirst(fl: FreeList, f: nat, freep: int, at: nat, r: int, nunits: int) {
    && FirstFit(fl, f, at + 1, nunits) && freep == fl[at].addr
    && r - 1 + nunits == fl[at + 1].addr + fl[at + 1].size
  }

  lemma FirstOnTheWay(fl: FreeList, f: nat, c: nat, nunits: int)
    requires f < |fl| && 1 <= c <= |fl| && fl[Turn(f, c, |fl|)].size >= nunits
    requires forall d :: 1 <= d < c ==> TooSmall(fl, f, d, nunits)
    ensures FirstFit(fl, f, Turn(f, c, |fl|), nunits)
  {
    var i := Turn(f, c, |fl|);
    forall k | 0 <= k < |fl| && fl[k].size >= nunits && k != i
      ensures if f < i then k <= f || k > i else i < k <= f
    {
      var d := TurnReaches(f, |fl|, k);
      assert d >= c || TooSmall(fl, f, d, nunits);
    }
  }

  ghost predicate SomeFits(fl: FreeList, nunits: int) {
    exists i :: 0 <= i < |fl| && fl[i].size >= nunits
  }

  /** Units that `morecore` asks for. */
  function Request(nunits: nat): nat {
    if nunits < MORECORE then MORECORE else nunits
  }
}
