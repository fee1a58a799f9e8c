/**
 Two-level page tables (mmu.h, vm.c) and who owns each physical frame.
 */
module PageTables {
  import opened Common

  const PGSIZE := 4096
  const NENTRIES := 1024
  const KERNPAGE := 524288     // first kernel page: KERNBASE / PGSIZE
  const ALLPAGES := 1048576

  /** A page table entry; `*pte == 0` is the only absent entry that vm.c writes. */
  datatype Pte = Absent | Map(frame: nat, w: bool, u: bool)

  type Dir = s: seq<nat> | |s| == NENTRIES witness seq(NENTRIES, _ => 0)       // table frames, 0 when absent
  type Table = s: seq<Pte> | |s| == NENTRIES witness seq(NENTRIES, _ => Absent)
  type Page = s: seq<Byte> | |s| == PGSIZE witness seq(PGSIZE, _ => 0)

  function NoTables(): (d: Dir)
    ensures forall i :: 0 <= i < NENTRIES ==> d[i] == 0
  {
    seq(NENTRIES, _ => 0)
  }

  function NoPages(): (t: Table)
    ensures forall i :: 0 <= i < NENTRIES ==> t[i] == Absent
  {
    seq(NENTRIES, _ => Absent)
  }

  function Filled(b: Byte): (p: Page)
    ensures forall i :: 0 <= i < PGSIZE ==> p[i] == b
  {
    seq(PGSIZE, _ => b)
  }

  /** What an allocated frame is used for. */
  datatype Role =
    | Directory                    // a page directory
    | TableOf(dir: nat, pdx: nat)  // a page table of a directory
    | User(dir: nat, vpn: nat)     // mapped at a user page
    | Other                        // a kernel stack, a pipe, or just allocated

  type Owner = map<nat, Role>
  type Dirs = map<nat, Dir>
  type Tables = map<nat, Table>

  /** The entry that walkpgdir finds for a virtual page. */
  function Entry(dirs: Dirs, tabs: Tables, d: nat, vpn: nat): Pte
    requires d in dirs && vpn < ALLPAGES
  {
    var t := dirs[d][vpn / NENTRIES];
    if t != 0 && t in tabs then tabs[t][vpn % NENTRIES] else Absent
  }

  ghost predicate TableSlot(dirs: Dirs, tabs: Tables, owner: Owner, d: nat, i: nat)
    requires d in dirs && i < NENTRIES
  {
    var t := dirs[d][i];
    t != 0 ==> t in owner && owner[t] == TableOf(d, i) && t in tabs
  }

  ghost predicate PageSlot(dirs: Dirs, tabs: Tables, owner: Owner, d: nat, vpn: nat)
    requires d in dirs && vpn < KERNPAGE
  {
    var e := Entry(dirs, tabs, d, vpn);
    e.Map? ==> e.frame in owner && owner[e.frame] == User(d, vpn)
  }

  /** Everything a directory reaches is its own. */
  ghost predicate DirOwned(dirs: Dirs, tabs: Tables, owner: Owner, d: nat)
    requires d in dirs
  {
    && d in owner && owner[d] == Directory
    && (forall i :: 0 <= i < NENTRIES ==> TableSlot(dirs, tabs, owner, d, i))
    && (forall vpn :: 0 <= vpn < KERNPAGE ==> PageSlot(dirs, tabs, owner, d, vpn))
  }

  /** An allocated frame is where its role says. */
  ghost predicate Placed(dirs: Dirs, tabs: Tables, owner: Owner, f: nat)
    requires f in owner
  {
    match owner[f]
    case Directory => f in dirs
    case TableOf(d, i) => d in dirs && i < NENTRIES && dirs[d][i] == f && f != 0
    case User(d, vpn) =>
      d in dirs && vpn < KERNPAGE && Entry(dirs, tabs, d, vpn).Map? && Entry(dirs, tabs, d, vpn).frame == f
    case Other => true
  }

  /** Every frame in use has exactly one use. */
  ghost predicate Owned(dirs: Dirs, tabs: Tables, owner: Owner) {
    && (forall d {:trigger DirOwned(dirs, tabs, owner, d)} :: d in dirs ==> DirOwned(dirs, tabs, owner, d))
    && (forall f {:trigger Placed(dirs, tabs, owner, f)} :: f in owner ==> Placed(dirs, tabs, owner, f))
  }

  ghost predicate InRange(f: nat, lo: nat, hi: nat) {
    lo <= f < hi
  }

  /** Every frame of physical memory is on the free list, once, or in use. */
  ghost predicate Conserved(lo: nat, hi: nat, free: seq<nat>, owner: Owner) {
    && 0 < lo
    && (forall f :: InRange(f, lo, hi) <==> f in owner || f in free)
    && (forall f :: f in owner ==> f !in free)
    && (forall i, j :: 0 <= i < j < |free| ==> free[i] != free[j])
  }

  // ---------------------------------------------------------- no frame used twice

  lemma OneTable(dirs: Dirs, tabs: Tables, owner: Owner, d: nat, i: nat, e: nat, j: nat)
    requires Owned(dirs, tabs, owner) && d in dirs && e in dirs && i < NENTRIES && j < NENTRIES
    requires dirs[d][i] == dirs[e][j] != 0
    ensures d == e && i == j
  {
    assert DirOwned(dirs, tabs, owner, d) && DirOwned(dirs, tabs, owner, e);
    assert TableSlot(dirs, tabs, owner, d, i) && TableSlot(dirs, tabs, owner, e, j);
  }

  /** Two user pages, of one process or of two, never share a frame. */
  lemma OnePage(dirs: Dirs, tabs: Tables, owner: Owner, d: nat, v: nat, e: nat, w: nat)
    requires Owned(dirs, tabs, owner) && d in dirs && e in dirs && v < KERNPAGE && w < KERNPAGE
    requires Entry(dirs, tabs, d, v).Map? && Entry(dirs, tabs, e, w).Map?
    requires Entry(dirs, tabs, d, v).frame == Entry(dirs, tabs, e, w).frame
    ensures d == e && v == w
  {
    assert DirOwned(dirs, tabs, owner, d) && DirOwned(dirs, tabs, owner, e);
    assert PageSlot(dirs, tabs, owner, d, v) && PageSlot(dirs, tabs, owner, e, w);
  }

  lemma MappedIsOwned(dirs: Dirs, tabs: Tables, owner: Owner, d: nat, vpn: nat)
    requires Owned(dirs, tabs, owner) && d in dirs && vpn < KERNPAGE && Entry(dirs, tabs, d, vpn).Map?
    ensures Entry(dirs, tabs, d, vpn).frame in owner && owner[Entry(dirs, tabs, d, vpn).frame] == User(d, vpn)
  {
    assert DirOwned(dirs, tabs, owner, d);
    assert PageSlot(dirs, tabs, owner, d, vpn);
  }

  /** A present table of a directory. */
  lemma TableIsOwned(dirs: Dirs, tabs: Tables, owner: Owner, d: nat, i: nat)
    requires Owned(dirs, tabs, owner) && d in dirs && i < NENTRIES && dirs[d][i] != 0
    ensures dirs[d][i] in owner && owner[dirs[d][i]] == TableOf(d, i) && dirs[d][i] in tabs
  {
    assert DirOwned(dirs, tabs, owner, d);
    assert TableSlot(dirs, tabs, owner, d, i);
  }

  // ------------------------------------------------------------- a new page table

  /** walkpgdir gives directory d an empty table t at index i. */
  function AddTable(dirs: Dirs, d: nat, i: nat, t: nat): Dirs
    requires d in dirs && i < NENTRIES
  {
    dirs[d := dirs[d][i := t]]
  }

  lemma AddTableEntry(dirs: Dirs, tabs: Tables, owner: Owner, d: nat, i: nat, t: nat, e: nat, vpn: nat)
    requires Owned(dirs, tabs, owner) && d in dirs && i < NENTRIES && dirs[d][i] == 0
    requires t in owner && owner[t] == Other && t != 0 && e in dirs && vpn < ALLPAGES
    ensures Entry(AddTable(dirs, d, i, t), tabs[t := NoPages()], e, vpn) == Entry(dirs, tabs, e, vpn)
  {
    var s := dirs[e][vpn / NENTRIES];
    if s != 0 {
      TableIsOwned(dirs, tabs, owner, e, vpn / NENTRIES);
    }
  }

  lemma AddTableOwned(dirs: Dirs, tabs: Tables, owner: Owner, d: nat, i: nat, t: nat)
    requires Owned(dirs, tabs, owner) && d in dirs && i < NENTRIES && dirs[d][i] == 0
    requires t in owner && owner[t] == Other && t != 0
    ensures Owned(AddTable(dirs, d, i, t), tabs[t := NoPages()], owner[t := TableOf(d, i)])
  {
    var dirs', tabs', owner' := AddTable(dirs, d, i, t), tabs[t := NoPages()], owner[t := TableOf(d, i)];
    forall e | e in dirs' ensures DirOwned(dirs', tabs', owner', e) {
      assert DirOwned(dirs, tabs, owner, e);
      forall j | 0 <= j < NENTRIES ensures TableSlot(dirs', tabs', owner', e, j) {
        assert TableSlot(dirs, tabs, owner, e, j);
      }
      forall vpn | 0 <= vpn < KERNPAGE ensures PageSlot(dirs', tabs', owner', e, vpn) {
        assert PageSlot(dirs, tabs, owner, e, vpn);
        AddTableEntry(dirs, tabs, owner, d, i, t, e, vpn);
      }
    }
    forall f | f in owner' ensures Placed(dirs', tabs', owner', f) {
      assert Placed(dirs, tabs, owner, f);
      if f != t && owner[f].User? {
        AddTableEntry(dirs, tabs, owner, d, i, t, owner[f].dir, owner[f].vpn);
      }
    }
  }

  // ------------------------------------------------------------ writing an entry

  /** `*pte = ...` for a page whose table is present. */
  function SetEntry(dirs: Dirs, tabs: Tables, d: nat, vpn: nat, e: Pte): Tables
    requires d in dirs && vpn < ALLPAGES && dirs[d][vpn / NENTRIES] in tabs
  {
    var t := dirs[d][vpn / NENTRIES];
    tabs[t := tabs[t][vpn % NENTRIES := e]]
  }

  lemma SetEntryEntry(dirs: Dirs, tabs: Tables, owner: Owner, d: nat, vpn: nat, e: Pte, d2: nat, v2: nat)
    requires Owned(dirs, tabs, owner) && d in dirs && vpn < ALLPAGES && d2 in dirs && v2 < ALLPAGES
    requires dirs[d][vpn / NENTRIES] in tabs && dirs[d][vpn / NENTRIES] != 0
    ensures Entry(dirs, SetEntry(dirs, tabs, d, vpn, e), d2, v2) ==
            if d2 == d && v2 == vpn then e else Entry(dirs, tabs, d2, v2)
  {
    if dirs[d2][v2 / NENTRIES] == dirs[d][vpn / NENTRIES] {
      OneTable(dirs, tabs, owner, d, vpn / NENTRIES, d2, v2 / NENTRIES);
      assert v2 == v2 / NENTRIES * NENTRIES + v2 % NENTRIES && vpn == vpn / NENTRIES * NENTRIES + vpn % NENTRIES;
    }
  }

  /** How ownership follows the entry of a user page. */
  ghost function Reassigned(owner: Owner, d: nat, vpn: nat, was: Pte, e: Pte): Owner {
    if vpn >= KERNPAGE then owner
    else if e.Map? then owner[e.frame := User(d, vpn)]
    else if was.Map? then owner - {was.frame}
    else owner
  }

  /** An absent page is mapped to a spare frame, or a mapped one becomes absent. */
  lemma SetEntryOwned(dirs: Dirs, tabs: Tables, owner: Owner, d: nat, vpn: nat, e: Pte)
    requires Owned(dirs, tabs, owner) && d in dirs && vpn < ALLPAGES
    requires dirs[d][vpn / NENTRIES] in tabs && dirs[d][vpn / NENTRIES] != 0
    requires e.Map? && vpn < KERNPAGE ==>
      e.frame in owner && owner[e.frame] == Other && Entry(dirs, tabs, d, vpn) == Absent
    ensures Owned(dirs, SetEntry(dirs, tabs, d, vpn, e), Reassigned(owner, d, vpn, Entry(dirs, tabs, d, vpn), e))
  {
    var was := Entry(dirs, tabs, d, vpn);
    var tabs', owner' := SetEntry(dirs, tabs, d, vpn, e), Reassigned(owner, d, vpn, was, e);
    if was.Map? && vpn < KERNPAGE {
      MappedIsOwned(dirs, tabs, owner, d, vpn);
    }
    forall d2 | d2 in dirs ensures DirOwned(dirs, tabs', owner', d2) {
      assert DirOwned(dirs, tabs, owner, d2);
      forall j | 0 <= j < NENTRIES ensures TableSlot(dirs, tabs', owner', d2, j) {
        assert TableSlot(dirs, tabs, owner, d2, j);
      }
      forall v2 | 0 <= v2 < KERNPAGE ensures PageSlot(dirs, tabs', owner', d2, v2) {
        assert PageSlot(dirs, tabs, owner, d2, v2);
        SetEntryEntry(dirs, tabs, owner, d, vpn, e, d2, v2);
      }
    }
    forall f | f in owner' ensures Placed(dirs, tabs', owner', f) {
      assert Placed(dirs, tabs, owner, f);
      if owner'[f].User? {
        SetEntryEntry(dirs, tabs, owner, d, vpn, e, owner'[f].dir, owner'[f].vpn);
      }
    }
  }

  // ------------------------------------------------- directories come and go

  lemma NewDirectory(dirs: Dirs, tabs: Tables, owner: Owner, d: nat)
    requires Owned(dirs, tabs, owner) && d in owner && owner[d] == Other && d !in dirs
    ensures Owned(dirs[d := NoTables()], tabs, owner[d := Directory])
  {
    var dirs', owner' := dirs[d := NoTables()], owner[d := Directory];
    forall e | e in dirs' ensures DirOwned(dirs', tabs, owner', e) {
      if e != d {
        assert DirOwned(dirs, tabs, owner, e);
        forall i | 0 <= i < NENTRIES ensures TableSlot(dirs', tabs, owner', e, i) {
          assert TableSlot(dirs, tabs, owner, e, i);
        }
        forall vpn | 0 <= vpn < KERNPAGE ensures PageSlot(dirs', tabs, owner', e, vpn) {
          assert PageSlot(dirs, tabs, owner, e, vpn);
        }
      }
    }
    forall f | f in owner' ensures Placed(dirs', tabs, owner', f) {
      assert Placed(dirs, tabs, owner, f);
    }
  }

  ghost predicate NoUserPages(dirs: Dirs, tabs: Tables, d: nat)
    requires d in dirs
  {
    forall vpn :: 0 <= vpn < KERNPAGE ==> Entry(dirs, tabs, d, vpn) == Absent
  }

  lemma DropTableEntry(dirs: Dirs, tabs: Tables, owner: Owner, d: nat, i: nat, e: nat, vpn: nat)
    requires Owned(dirs, tabs, owner) && d in dirs && i < NENTRIES && dirs[d][i] != 0 && e in dirs && vpn < ALLPAGES
    ensures Entry(AddTable(dirs, d, i, 0), tabs - {dirs[d][i]}, e, vpn) ==
            if e == d && vpn / NENTRIES == i then Absent else Entry(dirs, tabs, e, vpn)
  {
    if dirs[e][vpn / NENTRIES] == dirs[d][i] {
      OneTable(dirs, tabs, owner, d, i, e, vpn / NENTRIES);
    }
  }

  /** A table whose user pages are gone goes back. */
  lemma DropTable(dirs: Dirs, tabs: Tables, owner: Owner, d: nat, i: nat)
    requires Owned(dirs, tabs, owner) && d in dirs && i < NENTRIES && dirs[d][i] != 0 && NoUserPages(dirs, tabs, d)
    ensures dirs[d][i] in owner
    ensures Owned(AddTable(dirs, d, i, 0), tabs - {dirs[d][i]}, owner - {dirs[d][i]})
    ensures NoUserPages(AddTable(dirs, d, i, 0), tabs - {dirs[d][i]}, d)
  {
    var t := dirs[d][i];
    TableIsOwned(dirs, tabs, owner, d, i);
    var dirs', tabs', owner' := AddTable(dirs, d, i, 0), tabs - {t}, owner - {t};
    forall e | e in dirs' ensures DirOwned(dirs', tabs', owner', e) {
      assert DirOwned(dirs, tabs, owner, e);
      forall j | 0 <= j < NENTRIES ensures TableSlot(dirs', tabs', owner', e, j) {
        assert TableSlot(dirs, tabs, owner, e, j);
        if dirs[e][j] == t {
          OneTable(dirs, tabs, owner, d, i, e, j);
        }
      }
      forall vpn | 0 <= vpn < KERNPAGE ensures PageSlot(dirs', tabs', owner', e, vpn) {
        assert PageSlot(dirs, tabs, owner, e, vpn);
        DropTableEntry(dirs, tabs, owner, d, i, e, vpn);
      }
    }
    forall f | f in owner' ensures Placed(dirs', tabs', owner', f) {
      assert Placed(dirs, tabs, owner, f);
      if owner[f].User? {
        DropTableEntry(dirs, tabs, owner, d, i, owner[f].dir, owner[f].vpn);
        assert owner[f].dir == d ==> Entry(dirs, tabs, d, owner[f].vpn) == Absent;
      }
    }
    forall vpn | 0 <= vpn < KERNPAGE ensures Entry(dirs', tabs', d, vpn) == Absent {
      DropTableEntry(dirs, tabs, owner, d, i, d, vpn);
    }
  }

  /** A directory without tables goes back. */
  lemma DropDirectory(dirs: Dirs, tabs: Tables, owner: Owner, d: nat)
    requires Owned(dirs, tabs, owner) && d in dirs && forall i :: 0 <= i < NENTRIES ==> dirs[d][i] == 0
    ensures d in owner && Owned(dirs - {d}, tabs, owner - {d})
  {
    assert DirOwned(dirs, tabs, owner, d);
    var dirs', owner' := dirs - {d}, owner - {d};
    forall e | e in dirs' ensures DirOwned(dirs', tabs, owner', e) {
      assert DirOwned(dirs, tabs, owner, e);
      forall i | 0 <= i < NENTRIES ensures TableSlot(dirs', tabs, owner', e, i) {
        assert TableSlot(dirs, tabs, owner, e, i);
      }
      forall vpn | 0 <= vpn < KERNPAGE ensures PageSlot(dirs', tabs, owner', e, vpn) {
        assert PageSlot(dirs, tabs, owner, e, vpn);
      }
    }
    forall f | f in owner' ensures Placed(dirs', tabs, owner', f) {
      assert Placed(dirs, tabs, owner, f);
    }
  }

  // ----------------------------------------------------------- what a process sees

  type Pages = map<nat, Page>   // contents of frames

  /** A user page as a program sees it. */
  datatype Cell = Cell(bytes: Page, w: bool, u: bool)

  /** A page that is not there yet counts as a page of zeroes, writable and accessible. */
  function CellAt(dirs: Dirs, tabs: Tables, pages: Pages, d: nat, vpn: nat): Cell
    requires d in dirs && vpn < KERNPAGE
  {
    match Entry(dirs, tabs, d, vpn)
    case Absent => Cell(Filled(0), true, true)
    case Map(f, w, u) => Cell(Contents(pages, f), w, u)
  }

  function Contents(pages: Pages, f: nat): Page {
    if f in pages then pages[f] else Filled(0)
  }

  ghost predicate CellSame(dirs: Dirs, tabs: Tables, pages: Pages, dirs': Dirs, tabs': Tables, pages': Pages, d: nat,
                           vpn: nat)
    requires d in dirs && d in dirs' && vpn < KERNPAGE
  {
    CellAt(dirs', tabs', pages', d, vpn) == CellAt(dirs, tabs, pages, d, vpn)
  }

  /** Nothing changes for the process with directory d. */
  ghost predicate SameMemory(dirs: Dirs, tabs: Tables, pages: Pages, dirs': Dirs, tabs': Tables, pages': Pages,
                             d: nat) {
    && d in dirs && d in dirs'
    && forall vpn :: 0 <= vpn < KERNPAGE ==> CellSame(dirs, tabs, pages, dirs', tabs', pages', d, vpn)
  }

  ghost predicate EntrySame(dirs: Dirs, tabs: Tables, dirs': Dirs, tabs': Tables, d: nat, vpn: nat)
    requires d in dirs && d in dirs' && vpn < ALLPAGES
  {
    Entry(dirs', tabs', d, vpn) == Entry(dirs, tabs, d, vpn)
  }

  ghost predicate SameEntries(dirs: Dirs, tabs: Tables, dirs': Dirs, tabs': Tables, d: nat) {
    && d in dirs && d in dirs'
    && forall vpn :: 0 <= vpn < ALLPAGES ==> EntrySame(dirs, tabs, dirs', tabs', d, vpn)
  }

  /** Frames mapped by processes keep their contents. */
  ghost predicate PagesKept(owner: Owner, pages: Pages, pages': Pages) {
    forall f :: f in owner && owner[f].User? ==> PageKept(pages, pages', f)
  }

  ghost predicate PageKept(pages: Pages, pages': Pages, f: nat) {
    (f in pages <==> f in pages') && (f in pages ==> pages'[f] == pages[f])
  }

  lemma MemoryFrame(dirs: Dirs, tabs: Tables, owner: Owner, pages: Pages, dirs': Dirs, tabs': Tables, pages': Pages,
                    d: nat)
    requires Owned(dirs, tabs, owner) && SameEntries(dirs, tabs, dirs', tabs', d) && PagesKept(owner, pages, pages')
    ensures SameMemory(dirs, tabs, pages, dirs', tabs', pages', d)
  {
    forall vpn | 0 <= vpn < KERNPAGE ensures CellSame(dirs, tabs, pages, dirs', tabs', pages', d, vpn) {
      assert EntrySame(dirs, tabs, dirs', tabs', d, vpn);
      if Entry(dirs, tabs, d, vpn).Map? {
        MappedIsOwned(dirs, tabs, owner, d, vpn);
        assert PageKept(pages, pages', Entry(dirs, tabs, d, vpn).frame);
      }
    }
  }
}
