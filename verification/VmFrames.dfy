/** How many frames the operations of vm.c need: pages, and the page tables that are missing for them. */
module VmFrames {
  import opened PageTables
  import opened VmSteps
  import opened VmSpaces

  const KERNTABLE := 512       // first slot of the kernel part: PDX(KERNBASE)
  const SETUPFRAMES := 65      // a directory and the page tables of the kernel part

  function Lacks(dir: Dir, i: nat): nat
    requires i < NENTRIES
  {
    if dir[i] == 0 then 1 else 0
  }

  /** Slots of [a, b) without a page table. */
  ghost function Missing(dir: Dir, a: nat, b: nat): nat
    requires b <= NENTRIES
    decreases b
  {
    if b <= a then 0 else Missing(dir, a, b - 1) + Lacks(dir, b - 1)
  }

  /** The slots of [a, b) have a page table now, and the others are what they were. */
  ghost predicate FilledIn(dir: Dir, dir': Dir, a: nat, b: nat) {
    forall j :: 0 <= j < NENTRIES ==> if a <= j < b then dir'[j] != 0 else dir'[j] == dir[j]
  }

  /** The first slot after those of the n pages from v. */
  function SlotEnd(v: nat, n: nat): nat {
    if n == 0 then v / NENTRIES else (v + n - 1) / NENTRIES + 1
  }

  /** The page tables that n pages from v still need. */
  ghost function TablesFor(dir: Dir, v: nat, n: nat): nat
    requires v + n <= ALLPAGES
  {
    Missing(dir, v / NENTRIES, SlotEnd(v, n))
  }

  /** The frames that a page needs that is not there. */
  function FramesToTouch(dir: Dir, vpn: nat): nat
    requires vpn < ALLPAGES
  {
    1 + Lacks(dir, vpn / NENTRIES)
  }

  /** The frames for growing from oldsz to newsz bytes at once. */
  ghost function FramesToGrow(dir: Dir, oldsz: nat, newsz: nat): nat
    requires oldsz <= newsz < KERNBASE
  {
    var n := PagesOf(newsz) - PagesOf(oldsz);
    n + TablesFor(dir, PagesOf(oldsz), n)
  }

  /** One page more. */
  lemma FilledNext(dir: Dir, dir1: Dir, dir2: Dir, v: nat, n: nat)
    requires v + n < ALLPAGES && FilledIn(dir, dir1, v / NENTRIES, SlotEnd(v, n))
    requires FilledIn(dir1, dir2, (v + n) / NENTRIES, (v + n) / NENTRIES + 1)
    ensures FilledIn(dir, dir2, v / NENTRIES, SlotEnd(v, n + 1))
  {
    SlotNext(v, n);
  }

  lemma SlotNext(v: nat, n: nat)
    ensures var i := (v + n) / NENTRIES;
            SlotEnd(v, n + 1) == i + 1 && v / NENTRIES <= i && (SlotEnd(v, n) == i || (n > 0 && SlotEnd(v, n) == i + 1))
  {
  }

  lemma TablesNext(dir: Dir, dir1: Dir, v: nat, n: nat)
    requires v + n < ALLPAGES && FilledIn(dir, dir1, v / NENTRIES, SlotEnd(v, n))
    ensures TablesFor(dir, v, n + 1) == TablesFor(dir, v, n) + Lacks(dir1, (v + n) / NENTRIES)
  {
    SlotNext(v, n);
  }

  lemma {:induction false} MissingGrows(dir: Dir, a: nat, b: nat, c: nat)
    requires b <= c <= NENTRIES
    ensures Missing(dir, a, b) <= Missing(dir, a, c)
  {
    if b < c {
      MissingGrows(dir, a, b, c - 1);
    }
  }

  lemma TablesGrow(dir: Dir, v: nat, n: nat, m: nat)
    requires n <= m && v + m <= ALLPAGES
    ensures TablesFor(dir, v, n) <= TablesFor(dir, v, m)
  {
    MissingGrows(dir, v / NENTRIES, SlotEnd(v, n), SlotEnd(v, m));
  }

  lemma SingleTable(dir: Dir, v: nat)
    requires v < ALLPAGES
    ensures TablesFor(dir, v, 1) == Lacks(dir, v / NENTRIES) && SlotEnd(v, 1) == v / NENTRIES + 1
  {
    assert Missing(dir, v / NENTRIES, v / NENTRIES) == 0;
  }

  // -------------------------------------------------- what was taken off the free list

  /** A page table in slot i: what is needed, and what became of it. */
  ghost predicate TookTable(dir: Dir, dir': Dir, i: nat, before: nat, after: nat, ok: bool)
    requires i < NENTRIES
  {
    && (ok <==> before >= Lacks(dir, i))
    && (ok ==> after == before - Lacks(dir, i) && FilledIn(dir, dir', i, i + 1))
  }

  /** The page tables of n pages from v are there, and no frame but theirs was taken. */
  ghost predicate Took(dir: Dir, dir': Dir, v: nat, n: nat, before: nat, after: nat)
    requires v + n <= ALLPAGES
  {
    FilledIn(dir, dir', v / NENTRIES, SlotEnd(v, n)) && after + TablesFor(dir, v, n) == before
  }

  lemma TookNone(dir: Dir, v: nat, free: nat)
    requires v <= ALLPAGES
    ensures Took(dir, dir, v, 0, free, free) && TookPages(dir, dir, v, v, free, free)
  {
  }

  lemma TookNext(dir: Dir, dir1: Dir, dir2: Dir, v: nat, n: nat, count: nat, before: nat, mid: nat, after: nat,
                 ok: bool)
    requires n < count && v + count <= ALLPAGES && Took(dir, dir1, v, n, before, mid)
    requires TookTable(dir1, dir2, (v + n) / NENTRIES, mid, after, ok)
    ensures ok ==> Took(dir, dir2, v, n + 1, before, after)
    ensures !ok ==> before < TablesFor(dir, v, count)
  {
    TablesNext(dir, dir1, v, n);
    TablesGrow(dir, v, n + 1, count);
    if ok {
      FilledNext(dir, dir1, dir2, v, n);
    }
  }

  /** Page vpn is there, and no frame but its own and that of its page table was taken. */
  ghost predicate TookPage(dir: Dir, dir': Dir, vpn: nat, before: nat, after: nat)
    requires vpn < ALLPAGES
  {
    FilledIn(dir, dir', vpn / NENTRIES, vpn / NENTRIES + 1) && after + FramesToTouch(dir, vpn) == before
  }

  /** The same of pages first..v. */
  ghost predicate TookPages(dir: Dir, dir': Dir, first: nat, v: nat, before: nat, after: nat)
    requires first <= v <= ALLPAGES
  {
    Took(dir, dir', first, v - first, before, after + (v - first))
  }

  lemma TookPagesNext(dir: Dir, dir1: Dir, dir2: Dir, first: nat, v: nat, last: nat, before: nat, mid: nat, after: nat,
                      ok: bool)
    requires first <= v < last <= ALLPAGES && TookPages(dir, dir1, first, v, before, mid)
    requires ok <==> mid >= FramesToTouch(dir1, v)
    requires ok ==> TookPage(dir1, dir2, v, mid, after)
    ensures ok ==> TookPages(dir, dir2, first, v + 1, before, after)
    ensures !ok ==> before < last - first + TablesFor(dir, first, last - first)
  {
    var n := v - first;
    assert first + n == v;
    TablesNext(dir, dir1, first, n);
    TablesGrow(dir, first, n + 1, last - first);
    if ok {
      FilledNext(dir, dir1, dir2, first, n);
      assert v + 1 - first == n + 1;
    }
  }

  // ------------------------------------------------------------- the kernel part

  lemma {:induction false} MissingFrom(dir: Dir, a: nat, e: nat, b: nat)
    requires a <= e <= b <= NENTRIES && forall j :: a <= j < b ==> (dir[j] == 0 <==> e <= j)
    ensures Missing(dir, a, b) == b - e
  {
    if a < b {
      if e < b {
        MissingFrom(dir, a, e, b - 1);
      } else {
        MissingFrom(dir, a, e - 1, b - 1);
      }
    }
  }

  /** Where the slots of the first k rows of kmap end, but for the devices. */
  function KernelEnd(dataPage: nat, k: nat): nat {
    if k == 0 then KERNTABLE
    else if k == 1 then KERNTABLE + 1
    else if k == 2 then (KERNPAGE + dataPage - 1) / NENTRIES + 1
    else KERNTABLE + PHYSPAGES / NENTRIES
  }

  function KernelTables(dataPage: nat, k: nat): int {
    KernelEnd(dataPage, k) - KERNTABLE + if k == 4 then NENTRIES - DEVPAGE / NENTRIES else 0
  }

  /** The page tables of a directory are those of the first k rows of kmap. */
  ghost predicate KernelSlots(dir: Dir, dataPage: nat, k: nat) {
    forall j :: 0 <= j < NENTRIES ==>
      (dir[j] != 0 <==> KERNTABLE <= j < KernelEnd(dataPage, k) || (k == 4 && DEVPAGE / NENTRIES <= j))
  }

  lemma KernelNext(dir: Dir, dataPage: nat, k: nat)
    requires 256 < dataPage < PHYSPAGES && k < 4 && KernelSlots(dir, dataPage, k)
    ensures var (v, count, e) := Region(dataPage, k);
            TablesFor(dir, v, count) == KernelTables(dataPage, k + 1) - KernelTables(dataPage, k)
  {
    var (v, count, e) := Region(dataPage, k);
    var a, b := v / NENTRIES, SlotEnd(v, count);
    MissingFrom(dir, a, if k == 3 then a else KernelEnd(dataPage, k), b);
  }

  lemma KernelFilled(dir: Dir, dir': Dir, dataPage: nat, k: nat)
    requires 256 < dataPage < PHYSPAGES && k < 4 && KernelSlots(dir, dataPage, k)
    requires var (v, count, e) := Region(dataPage, k); FilledIn(dir, dir', v / NENTRIES, SlotEnd(v, count))
    ensures KernelSlots(dir', dataPage, k + 1)
  {
  }

  lemma KernelTablesGrow(dataPage: nat, k: nat)
    requires 256 < dataPage < PHYSPAGES && k < 4
    ensures 0 <= KernelTables(dataPage, k) <= KernelTables(dataPage, k + 1) <= KernelTables(dataPage, 4)
    ensures KernelTables(dataPage, 4) == SETUPFRAMES - 1
  {
  }

  // ------------------------------------------------------------------- a copy

  /** Some page below v that slot i covers is present. */
  ghost predicate HasPage(dirs: Dirs, tabs: Tables, d: nat, i: nat, v: nat)
    requires d in dirs && v <= ALLPAGES
  {
    exists x :: 0 <= x < v && x / NENTRIES == i && Entry(dirs, tabs, d, x).Map?
  }

  /** The frames for a copy of page v: none if it is absent, and a page table if it is the first of its slot. */
  ghost function FramesForPage(dirs: Dirs, tabs: Tables, d: nat, v: nat): nat
    requires d in dirs && v < ALLPAGES
  {
    if Entry(dirs, tabs, d, v) == Absent then 0 else if HasPage(dirs, tabs, d, v / NENTRIES, v) then 1 else 2
  }

  /** The present pages below v, and the page tables that they take. */
  ghost function FramesToCopy(dirs: Dirs, tabs: Tables, d: nat, v: nat): nat
    requires d in dirs && v <= ALLPAGES
  {
    if v == 0 then 0 else FramesToCopy(dirs, tabs, d, v - 1) + FramesForPage(dirs, tabs, d, v - 1)
  }

  lemma {:induction false} FramesToCopyGrow(dirs: Dirs, tabs: Tables, d: nat, v: nat, w: nat)
    requires d in dirs && v <= w <= ALLPAGES
    ensures FramesToCopy(dirs, tabs, d, v) <= FramesToCopy(dirs, tabs, d, w)
  {
    if v < w {
      FramesToCopyGrow(dirs, tabs, d, v, w - 1);
    }
  }

  /** The user part of `dir` has page tables for the present pages of d below v, and no other. */
  ghost predicate CopySlots(dirs: Dirs, tabs: Tables, d: nat, v: nat, dir: Dir)
    requires d in dirs && v <= ALLPAGES
  {
    forall i :: 0 <= i < KERNTABLE ==> (dir[i] != 0 <==> HasPage(dirs, tabs, d, i, v))
  }

  lemma CopySlotsNone(dirs: Dirs, tabs: Tables, d: nat, dataPage: nat, dir: Dir)
    requires d in dirs && KernelSlots(dir, dataPage, 4)
    ensures CopySlots(dirs, tabs, d, 0, dir)
  {
  }

  lemma CopySlotsSkip(dirs: Dirs, tabs: Tables, d: nat, v: nat, dir: Dir)
    requires d in dirs && v < KERNPAGE && CopySlots(dirs, tabs, d, v, dir) && Entry(dirs, tabs, d, v) == Absent
    ensures CopySlots(dirs, tabs, d, v + 1, dir)
  {
    var w := v + 1;
    forall i | 0 <= i < KERNTABLE ensures HasPage(dirs, tabs, d, i, v) <==> HasPage(dirs, tabs, d, i, w) {
    }
  }

  lemma CopySlotsNext(dirs: Dirs, tabs: Tables, d: nat, v: nat, dir: Dir, dir': Dir)
    requires d in dirs && v < KERNPAGE && CopySlots(dirs, tabs, d, v, dir) && Entry(dirs, tabs, d, v).Map?
    requires FilledIn(dir, dir', v / NENTRIES, v / NENTRIES + 1)
    ensures CopySlots(dirs, tabs, d, v + 1, dir')
  {
    var w := v + 1;
    forall i | 0 <= i < KERNTABLE ensures dir'[i] != 0 <==> HasPage(dirs, tabs, d, i, w) {
      if i == v / NENTRIES {
        assert Entry(dirs, tabs, d, v).Map?;
      } else {
        assert HasPage(dirs, tabs, d, i, v) <==> HasPage(dirs, tabs, d, i, w);
      }
    }
  }

  lemma CopyCost(dirs: Dirs, tabs: Tables, d: nat, v: nat, dir: Dir)
    requires d in dirs && v < KERNPAGE && CopySlots(dirs, tabs, d, v, dir) && Entry(dirs, tabs, d, v).Map?
    ensures FramesForPage(dirs, tabs, d, v) == FramesToTouch(dir, v)
  {
    assert dir[v / NENTRIES] != 0 <==> HasPage(dirs, tabs, d, v / NENTRIES, v);
  }

  /** The pages below v are copied, and no frame but theirs and those of their page tables was taken. */
  ghost predicate TookCopy(dirs: Dirs, tabs: Tables, d: nat, v: nat, dir: Dir, before: int, after: int)
    requires d in dirs && v <= ALLPAGES
  {
    CopySlots(dirs, tabs, d, v, dir) && after + FramesToCopy(dirs, tabs, d, v) == before
  }

  lemma TookCopyNone(dirs: Dirs, tabs: Tables, d: nat, dataPage: nat, dir: Dir, free: int)
    requires d in dirs && KernelSlots(dir, dataPage, 4)
    ensures TookCopy(dirs, tabs, d, 0, dir, free, free)
  {
    CopySlotsNone(dirs, tabs, d, dataPage, dir);
  }

  lemma TookCopyNext(dirs: Dirs, tabs: Tables, d: nat, v: nat, last: nat, dir1: Dir, dir2: Dir, before: int, mid: nat,
                     after: nat, ok: bool)
    requires d in dirs && v < last <= KERNPAGE && TookCopy(dirs, tabs, d, v, dir1, before, mid)
    requires ok <==> mid >= FramesForPage(dirs, tabs, d, v)
    requires ok ==> after == mid - FramesForPage(dirs, tabs, d, v) && CopySlots(dirs, tabs, d, v + 1, dir2)
    ensures ok ==> TookCopy(dirs, tabs, d, v + 1, dir2, before, after)
    ensures !ok ==> before < FramesToCopy(dirs, tabs, d, last)
  {
    FramesToCopyGrow(dirs, tabs, d, v + 1, last);
  }

  /** A scan only puts frames on the free list. */
  lemma {:induction false} ScanGrows(dirs: Dirs, tabs: Tables, d: nat, from: nat, to: nat, free: seq<nat>)
    requires d in dirs && to <= ALLPAGES
    ensures |Scan(dirs, tabs, d, from, to, free)| >= |free|
    decreases if from < to then to - from else 0
  {
    if from < to {
      var e := Entry(dirs, tabs, d, from);
      ScanGrows(dirs, tabs, d, from + 1, to, if e.Map? then [e.frame] + free else free);
    }
  }
}
