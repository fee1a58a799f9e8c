/** Whole address spaces: the kernel part that setupkvm maps, growing, and copying for fork. */
module VmSpaces {
  import opened PageTables
  import opened VmSteps

  // ------------------------------------------------------------- the kernel part

  /** Row k of kmap: first page, number of pages, and the entry of the first page. */
  function Region(dataPage: nat, k: nat): (r: (nat, nat, Pte))
    requires 256 < dataPage < PHYSPAGES && k < 4
    ensures r.2.Map? && 0 < r.1 && KERNPAGE <= r.0 && r.0 + r.1 <= ALLPAGES
  {
    if k == 0 then (KERNPAGE, 256, Map(0, true, false))
    else if k == 1 then (KERNPAGE + 256, dataPage - 256, Map(256, false, false))
    else if k == 2 then (KERNPAGE + dataPage, PHYSPAGES - dataPage, Map(dataPage, true, false))
    else (DEVPAGE, ALLPAGES - DEVPAGE, Map(DEVPAGE, true, false))
  }

  /** What the first k rows of kmap make of a page. */
  function KernelEntry(dataPage: nat, k: nat, vpn: nat): Pte {
    if k > 0 && KERNPAGE <= vpn < KERNPAGE + 256 then Map(vpn - KERNPAGE, true, false)
    else if k > 1 && KERNPAGE + 256 <= vpn < KERNPAGE + dataPage then Map(vpn - KERNPAGE, false, false)
    else if k > 2 && KERNPAGE + dataPage <= vpn < KERNPAGE + PHYSPAGES then Map(vpn - KERNPAGE, true, false)
    else if k > 3 && DEVPAGE <= vpn then Map(vpn, true, false)
    else Absent
  }

  ghost predicate KernelAt(dirs: Dirs, tabs: Tables, d: nat, dataPage: nat, k: nat, vpn: nat)
    requires d in dirs && vpn < ALLPAGES
  {
    Entry(dirs, tabs, d, vpn) == KernelEntry(dataPage, k, vpn)
  }

  /** Directory d has the first k rows of kmap and nothing else. */
  ghost predicate KernelPart(dirs: Dirs, tabs: Tables, d: nat, dataPage: nat, k: nat) {
    d in dirs && forall vpn :: 0 <= vpn < ALLPAGES ==> KernelAt(dirs, tabs, d, dataPage, k, vpn)
  }

  /**
   The kernel part by page: physical memory from KERNBASE up to PHYSTOP, read-only from 1 MB to
   the kernel data, the device space onto itself, and no other page; none is for user code.
   */
  ghost predicate KernelMap(dirs: Dirs, tabs: Tables, d: nat, dataPage: nat) {
    && d in dirs
    && (forall vpn :: 0x80000 <= vpn < 0x8E000 ==>
          Entry(dirs, tabs, d, vpn) == Map(vpn - 0x80000, !(256 <= vpn - 0x80000 < dataPage), false))
    && (forall vpn :: 0xFE000 <= vpn < 0x100000 ==> Entry(dirs, tabs, d, vpn) == Map(vpn, true, false))
    && (forall vpn :: 0 <= vpn < 0x80000 || 0x8E000 <= vpn < 0xFE000 ==> Entry(dirs, tabs, d, vpn) == Absent)
  }

  lemma KernelIsMapped(dirs: Dirs, tabs: Tables, d: nat, dataPage: nat)
    requires 256 < dataPage < PHYSPAGES && KernelPart(dirs, tabs, d, dataPage, 4)
    ensures KernelMap(dirs, tabs, d, dataPage)
  {
    forall vpn | 0 <= vpn < ALLPAGES ensures Entry(dirs, tabs, d, vpn) == KernelEntry(dataPage, 4, vpn) {
      assert KernelAt(dirs, tabs, d, dataPage, 4, vpn);
    }
  }

  lemma KernelPartNew(dirs: Dirs, tabs: Tables, d: nat, dataPage: nat)
    ensures KernelPart(dirs[d := NoTables()], tabs, d, dataPage, 0)
  {
  }

  lemma RegionAbsent(dirs: Dirs, tabs: Tables, d: nat, dataPage: nat, k: nat)
    requires 256 < dataPage < PHYSPAGES && k < 4 && KernelPart(dirs, tabs, d, dataPage, k)
    ensures AbsentFrom(dirs, tabs, d, Region(dataPage, k).0, Region(dataPage, k).1)
  {
    var (v, count, e) := Region(dataPage, k);
    forall vpn | v <= vpn < v + count ensures Entry(dirs, tabs, d, vpn) == Absent {
      assert KernelAt(dirs, tabs, d, dataPage, k, vpn);
    }
  }

  lemma RegionMapped(dirs: Dirs, tabs: Tables, dirs': Dirs, tabs': Tables, d: nat, dataPage: nat, k: nat)
    requires 256 < dataPage < PHYSPAGES && k < 4 && KernelPart(dirs, tabs, d, dataPage, k)
    requires var (v, count, e) := Region(dataPage, k); Maps(dirs, tabs, dirs', tabs', d, v, count, e)
    ensures KernelPart(dirs', tabs', d, dataPage, k + 1)
  {
    var (v, count, e) := Region(dataPage, k);
    assert MapsIn(dirs, tabs, dirs', tabs', d, v, count, e, d);
    var n := k + 1;
    forall vpn | 0 <= vpn < ALLPAGES ensures KernelAt(dirs', tabs', d, dataPage, n, vpn) {
      assert KernelAt(dirs, tabs, d, dataPage, k, vpn);
      assert MapsEntry(dirs, tabs, dirs', tabs', d, v, count, e, d, vpn);
    }
  }

  /** Kernel mappings, complete or not, are no user pages. */
  lemma KernelOnly(dirs: Dirs, tabs: Tables, dirs': Dirs, tabs': Tables, d: nat, dataPage: nat, k: nat, v: nat,
                   count: nat, e: Pte)
    requires KernelPart(dirs, tabs, d, dataPage, k) && Maps(dirs, tabs, dirs', tabs', d, v, count, e) && KERNPAGE <= v
    ensures d in dirs' && NoUserPages(dirs', tabs', d)
  {
    assert MapsIn(dirs, tabs, dirs', tabs', d, v, count, e, d);
    forall vpn | 0 <= vpn < KERNPAGE ensures Entry(dirs', tabs', d, vpn) == Absent {
      assert KernelAt(dirs, tabs, d, dataPage, k, vpn);
      assert MapsEntry(dirs, tabs, dirs', tabs', d, v, count, e, d, vpn);
    }
  }

  /** Mapping in a directory made since leaves the directories there were before alone. */
  lemma SameAfterMaps(dirs0: Dirs, tabs0: Tables, dirs: Dirs, tabs: Tables, dirs': Dirs, tabs': Tables, d: nat, v: nat,
                      count: nat, e: Pte)
    requires AllSame(dirs0, tabs0, dirs, tabs) && Maps(dirs, tabs, dirs', tabs', d, v, count, e) && d !in dirs0
    ensures AllSame(dirs0, tabs0, dirs', tabs')
  {
    forall d2 | d2 in dirs0 ensures SameEntries(dirs0, tabs0, dirs', tabs', d2) {
      assert SameEntries(dirs0, tabs0, dirs, tabs, d2);
      assert MapsIn(dirs, tabs, dirs', tabs', d, v, count, e, d2);
      forall vpn | 0 <= vpn < ALLPAGES ensures EntrySame(dirs0, tabs0, dirs', tabs', d2, vpn) {
        assert EntrySame(dirs0, tabs0, dirs, tabs, d2, vpn);
        assert MapsEntry(dirs, tabs, dirs', tabs', d, v, count, e, d2, vpn);
      }
    }
  }

  lemma SameAfterNew(dirs: Dirs, tabs: Tables, d: nat)
    requires d !in dirs
    ensures AllSame(dirs, tabs, dirs[d := NoTables()], tabs)
  {
    var dirs' := dirs[d := NoTables()];
    forall e | e in dirs ensures SameEntries(dirs, tabs, dirs', tabs, e) {
      forall vpn | 0 <= vpn < ALLPAGES ensures EntrySame(dirs, tabs, dirs', tabs, e, vpn) {}
    }
  }

  /** Freeing a directory made since leaves the directories there were before alone. */
  lemma SameAfterDrop(dirs0: Dirs, tabs0: Tables, dirs: Dirs, tabs: Tables, dirs': Dirs, tabs': Tables, d: nat)
    requires AllSame(dirs0, tabs0, dirs, tabs) && OthersSame(dirs, tabs, dirs', tabs', d) && d !in dirs0
    ensures AllSame(dirs0, tabs0, dirs', tabs')
  {
    forall e | e in dirs0 ensures SameEntries(dirs0, tabs0, dirs', tabs', e) {
      assert SameEntries(dirs0, tabs0, dirs, tabs, e) && SameEntries(dirs, tabs, dirs', tabs', e);
      forall vpn | 0 <= vpn < ALLPAGES ensures EntrySame(dirs0, tabs0, dirs', tabs', e, vpn) {
        assert EntrySame(dirs0, tabs0, dirs, tabs, e, vpn) && EntrySame(dirs, tabs, dirs', tabs', e, vpn);
      }
    }
  }

  ghost predicate NewForAt(owner: Owner, owner': Owner, d: nat, f: nat) {
    f in owner' && f !in owner ==> BelongsTo(owner', f, d)
  }

  /** Frames newly in use belong to directory d. */
  ghost predicate NewFor(owner: Owner, owner': Owner, d: nat) {
    forall f :: NewForAt(owner, owner', d, f)
  }

  lemma NewForMore(owner: Owner, owner1: Owner, owner2: Owner, d: nat)
    requires NewFor(owner, owner1, d) && NewOnly(owner1, owner2, d) && RolesKept(owner1, owner2)
    ensures NewFor(owner, owner2, d)
  {
    forall f ensures NewForAt(owner, owner2, d, f) {
      assert NewForAt(owner, owner1, d, f) && NewAt(owner1, owner2, d, f);
      assert f in owner1 ==> RoleKept(owner1, owner2, f);
    }
  }

  /** When the new directory is freed, exactly the frames in use before are in use. */
  lemma RolledBack(dirs: Dirs, tabs: Tables, owner: Owner, owner1: Owner, owner2: Owner, d: nat)
    requires Owned(dirs, tabs, owner) && d !in owner && d !in dirs
    requires RolesKept(owner, owner1) && NewFor(owner, owner1, d) && Drops(owner1, owner2, d)
    ensures owner2 == owner
  {
    forall f ensures f in owner2 <==> f in owner {
      assert DropsAt(owner1, owner2, d, f) && NewForAt(owner, owner1, d, f);
      if f in owner {
        assert RoleKept(owner, owner1, f) && Placed(dirs, tabs, owner, f);
      }
    }
    forall f | f in owner ensures owner2[f] == owner[f] {
      assert DropsAt(owner1, owner2, d, f) && RoleKept(owner, owner1, f);
    }
  }

  lemma UnusedDirectory(dirs: Dirs, tabs: Tables, owner: Owner, d: nat)
    requires Owned(dirs, tabs, owner) && d !in owner
    ensures d !in dirs
  {
    assert d in dirs ==> DirOwned(dirs, tabs, owner, d);
  }

  lemma NewForDirectory(owner: Owner, d: nat)
    requires d !in owner
    ensures RolesKept(owner, owner[d := Directory]) && NewFor(owner, owner[d := Directory], d)
  {
    var owner' := owner[d := Directory];
    forall f ensures NewForAt(owner, owner', d, f) {}
    forall f | f in owner ensures RoleKept(owner, owner', f) {}
  }

  // ------------------------------------------------------------ what programs see

  /** No process sees a difference. */
  ghost predicate Invisible(dirs: Dirs, tabs: Tables, pages: Pages, dirs': Dirs, tabs': Tables, pages': Pages) {
    forall e {:trigger SameMemory(dirs, tabs, pages, dirs', tabs', pages', e)} ::
      e in dirs ==> SameMemory(dirs, tabs, pages, dirs', tabs', pages', e)
  }

  lemma InvisibleTrans(dirs: Dirs, tabs: Tables, pages: Pages, dirs1: Dirs, tabs1: Tables, pages1: Pages, dirs2: Dirs,
                       tabs2: Tables, pages2: Pages)
    requires Invisible(dirs, tabs, pages, dirs1, tabs1, pages1) && Invisible(dirs1, tabs1, pages1, dirs2, tabs2, pages2)
    ensures Invisible(dirs, tabs, pages, dirs2, tabs2, pages2)
  {
    forall e | e in dirs ensures SameMemory(dirs, tabs, pages, dirs2, tabs2, pages2, e) {
      assert SameMemory(dirs, tabs, pages, dirs1, tabs1, pages1, e);
      assert SameMemory(dirs1, tabs1, pages1, dirs2, tabs2, pages2, e);
      forall vpn | 0 <= vpn < KERNPAGE ensures CellSame(dirs, tabs, pages, dirs2, tabs2, pages2, e, vpn) {
        assert CellSame(dirs, tabs, pages, dirs1, tabs1, pages1, e, vpn);
        assert CellSame(dirs1, tabs1, pages1, dirs2, tabs2, pages2, e, vpn);
      }
    }
  }

  lemma InvisibleFrame(dirs: Dirs, tabs: Tables, owner: Owner, pages: Pages, dirs': Dirs, tabs': Tables, pages': Pages)
    requires Owned(dirs, tabs, owner) && AllSame(dirs, tabs, dirs', tabs') && PagesKept(owner, pages, pages')
    ensures Invisible(dirs, tabs, pages, dirs', tabs', pages')
  {
    forall e | e in dirs ensures SameMemory(dirs, tabs, pages, dirs', tabs', pages', e) {
      assert SameEntries(dirs, tabs, dirs', tabs', e);
      MemoryFrame(dirs, tabs, owner, pages, dirs', tabs', pages', e);
    }
  }

  /** A page of zeroes mapped where there was none. */
  lemma ZeroMapped(dirs: Dirs, tabs: Tables, owner: Owner, pages: Pages, dirs': Dirs, tabs': Tables, d: nat, vpn: nat,
                   f: nat)
    requires Owned(dirs, tabs, owner) && d in dirs && vpn < KERNPAGE && Entry(dirs, tabs, d, vpn) == Absent
    requires f !in owner && Maps(dirs, tabs, dirs', tabs', d, vpn, 1, Map(f, true, true))
    ensures Invisible(dirs, tabs, pages, dirs', tabs', pages[f := Filled(0)])
  {
    var pages', e := pages[f := Filled(0)], Map(f, true, true);
    forall d2 | d2 in dirs ensures SameMemory(dirs, tabs, pages, dirs', tabs', pages', d2) {
      assert MapsIn(dirs, tabs, dirs', tabs', d, vpn, 1, e, d2);
      forall v2 | 0 <= v2 < KERNPAGE ensures CellSame(dirs, tabs, pages, dirs', tabs', pages', d2, v2) {
        assert MapsEntry(dirs, tabs, dirs', tabs', d, vpn, 1, e, d2, v2);
        if Entry(dirs, tabs, d2, v2).Map? {
          MappedIsOwned(dirs, tabs, owner, d2, v2);
        }
      }
    }
  }

  // ---------------------------------------------------------------------- growing

  ghost predicate GrewAt(dirs: Dirs, tabs: Tables, dirs': Dirs, tabs': Tables, d: nat, from: nat, to: nat, e: nat,
                         vpn: nat)
    requires e in dirs && e in dirs' && vpn < ALLPAGES
  {
    if e == d && from <= vpn < to then Entry(dirs', tabs', e, vpn).Map?
    else Entry(dirs', tabs', e, vpn) == Entry(dirs, tabs, e, vpn)
  }

  ghost predicate GrewIn(dirs: Dirs, tabs: Tables, dirs': Dirs, tabs': Tables, d: nat, from: nat, to: nat, e: nat) {
    && e in dirs && e in dirs'
    && forall vpn :: 0 <= vpn < ALLPAGES ==> GrewAt(dirs, tabs, dirs', tabs', d, from, to, e, vpn)
  }

  /** Pages from..to of directory d are present; no other entry changes. */
  ghost predicate Grew(dirs: Dirs, tabs: Tables, dirs': Dirs, tabs': Tables, d: nat, from: nat, to: nat) {
    && dirs'.Keys == dirs.Keys
    && forall e {:trigger GrewIn(dirs, tabs, dirs', tabs', d, from, to, e)} ::
         e in dirs ==> GrewIn(dirs, tabs, dirs', tabs', d, from, to, e)
  }

  lemma GrewNone(dirs: Dirs, tabs: Tables, d: nat, v: nat)
    ensures Grew(dirs, tabs, dirs, tabs, d, v, v)
  {
    forall e | e in dirs ensures GrewIn(dirs, tabs, dirs, tabs, d, v, v, e) {}
  }

  lemma GrewMore(dirs: Dirs, tabs: Tables, dirs1: Dirs, tabs1: Tables, dirs2: Dirs, tabs2: Tables, d: nat, from: nat,
                 v: nat, pte: Pte)
    requires Grew(dirs, tabs, dirs1, tabs1, d, from, v) && Maps(dirs1, tabs1, dirs2, tabs2, d, v, 1, pte) && from <= v
    ensures Grew(dirs, tabs, dirs2, tabs2, d, from, v + 1)
  {
    var to := v + 1;
    forall e | e in dirs ensures GrewIn(dirs, tabs, dirs2, tabs2, d, from, to, e) {
      assert GrewIn(dirs, tabs, dirs1, tabs1, d, from, v, e) && MapsIn(dirs1, tabs1, dirs2, tabs2, d, v, 1, pte, e);
      forall vpn | 0 <= vpn < ALLPAGES ensures GrewAt(dirs, tabs, dirs2, tabs2, d, from, to, e, vpn) {
        assert GrewAt(dirs, tabs, dirs1, tabs1, d, from, v, e, vpn);
        assert MapsEntry(dirs1, tabs1, dirs2, tabs2, d, v, 1, pte, e, vpn);
      }
    }
  }

  lemma GrewAbsent(dirs: Dirs, tabs: Tables, dirs': Dirs, tabs': Tables, d: nat, from: nat, v: nat, to: nat)
    requires Grew(dirs, tabs, dirs', tabs', d, from, v) && d in dirs && from <= v < to <= ALLPAGES
    requires AbsentFrom(dirs, tabs, d, from, to - from)
    ensures Entry(dirs', tabs', d, v) == Absent
  {
    assert GrewIn(dirs, tabs, dirs', tabs', d, from, v, d);
    assert GrewAt(dirs, tabs, dirs', tabs', d, from, v, d, v);
  }

  /** deallocuvm after a failure in the middle of growing. */
  lemma GrewUndone(dirs: Dirs, tabs: Tables, dirs1: Dirs, tabs1: Tables, tabs2: Tables, d: nat, from: nat, v: nat,
                   to: nat)
    requires Grew(dirs, tabs, dirs1, tabs1, d, from, v) && d in dirs && from <= v <= to <= ALLPAGES
    requires AbsentFrom(dirs, tabs, d, from, to - from) && Unmaps(dirs1, tabs1, tabs2, d, from, to)
    ensures AllSame(dirs, tabs, dirs1, tabs2)
  {
    forall e | e in dirs ensures SameEntries(dirs, tabs, dirs1, tabs2, e) {
      assert GrewIn(dirs, tabs, dirs1, tabs1, d, from, v, e);
      forall vpn | 0 <= vpn < ALLPAGES ensures EntrySame(dirs, tabs, dirs1, tabs2, e, vpn) {
        assert GrewAt(dirs, tabs, dirs1, tabs1, d, from, v, e, vpn);
        UnmapsEntry(dirs1, tabs1, tabs2, d, from, to, e, vpn);
      }
    }
  }

  ghost predicate GrewRoleAt(owner: Owner, owner': Owner, d: nat, from: nat, to: nat, f: nat) {
    && (f in owner ==> f in owner' && owner'[f] == owner[f])
    && (f in owner' && f !in owner ==> (owner'[f].TableOf? && owner'[f].dir == d) || WasPage(owner', f, d, from, to))
  }

  /** Frames newly in use are page tables of directory d and its pages from..to. */
  ghost predicate GrewRoles(owner: Owner, owner': Owner, d: nat, from: nat, to: nat) {
    forall f :: GrewRoleAt(owner, owner', d, from, to, f)
  }

  lemma GrewRolesNone(owner: Owner, d: nat, v: nat)
    ensures GrewRoles(owner, owner, d, v, v)
  {
    forall f ensures GrewRoleAt(owner, owner, d, v, v, f) {}
  }

  lemma GrewRolesMore(owner: Owner, owner1: Owner, owner2: Owner, d: nat, from: nat, v: nat, f: nat)
    requires GrewRoles(owner, owner1, d, from, v) && from <= v && f !in owner1
    requires RolesBut(owner1[f := Other], owner2, f) && f in owner2 && owner2[f] == User(d, v)
    requires NewOnly(owner1[f := Other], owner2, d)
    ensures GrewRoles(owner, owner2, d, from, v + 1)
  {
    var to := v + 1;
    forall g ensures GrewRoleAt(owner, owner2, d, from, to, g) {
      assert GrewRoleAt(owner, owner1, d, from, v, g) && NewAt(owner1[f := Other], owner2, d, g);
      if g in owner1 {
        assert RoleKept(owner1[f := Other], owner2, g);
      }
    }
  }

  lemma GrewRolesUndone(dirs: Dirs, tabs: Tables, owner: Owner, owner1: Owner, owner2: Owner, d: nat, from: nat, v: nat,
                        to: nat)
    requires Owned(dirs, tabs, owner) && d in dirs && from <= v <= to <= KERNPAGE
    requires AbsentFrom(dirs, tabs, d, from, to - from)
    requires GrewRoles(owner, owner1, d, from, v) && Unowns(owner1, owner2, d, from, to)
    ensures RolesKept(owner, owner2) && NewOnly(owner, owner2, d)
  {
    forall f ensures NewAt(owner, owner2, d, f) && (f in owner ==> RoleKept(owner, owner2, f)) {
      assert GrewRoleAt(owner, owner1, d, from, v, f) && UnownsAt(owner1, owner2, d, from, to, f);
      if f in owner {
        assert Placed(dirs, tabs, owner, f);
      }
    }
  }

  lemma NoneMapped(dirs: Dirs, tabs: Tables, dirs': Dirs, tabs': Tables, d: nat, v: nat, e: Pte)
    requires Maps(dirs, tabs, dirs', tabs', d, v, 0, e)
    ensures AllSame(dirs, tabs, dirs', tabs')
  {
    forall d2 | d2 in dirs ensures SameEntries(dirs, tabs, dirs', tabs', d2) {
      assert MapsIn(dirs, tabs, dirs', tabs', d, v, 0, e, d2);
      forall vpn | 0 <= vpn < ALLPAGES ensures EntrySame(dirs, tabs, dirs', tabs', d2, vpn) {
        assert MapsEntry(dirs, tabs, dirs', tabs', d, v, 0, e, d2, vpn);
      }
    }
  }

  lemma GrewSame(dirs: Dirs, tabs: Tables, dirs1: Dirs, tabs1: Tables, dirs2: Dirs, tabs2: Tables, d: nat, from: nat,
                 v: nat)
    requires Grew(dirs, tabs, dirs1, tabs1, d, from, v) && AllSame(dirs1, tabs1, dirs2, tabs2)
    requires dirs2.Keys == dirs1.Keys
    ensures Grew(dirs, tabs, dirs2, tabs2, d, from, v)
  {
    forall e | e in dirs ensures GrewIn(dirs, tabs, dirs2, tabs2, d, from, v, e) {
      assert GrewIn(dirs, tabs, dirs1, tabs1, d, from, v, e) && SameEntries(dirs1, tabs1, dirs2, tabs2, e);
      forall vpn | 0 <= vpn < ALLPAGES ensures GrewAt(dirs, tabs, dirs2, tabs2, d, from, v, e, vpn) {
        assert GrewAt(dirs, tabs, dirs1, tabs1, d, from, v, e, vpn) && EntrySame(dirs1, tabs1, dirs2, tabs2, e, vpn);
      }
    }
  }

  lemma UnownsNone(owner: Owner, d: nat, v: nat)
    ensures Unowns(owner, owner, d, v, v)
  {
    forall f ensures UnownsAt(owner, owner, d, v, v, f) {}
  }

  /** Roles after deallocuvm, when the frame in hand, if any, has gone too. */
  lemma UndoneRoles(dirs: Dirs, tabs: Tables, owner0: Owner, owner1: Owner, owner': Owner, owner2: Owner, d: nat,
                    from: nat, v: nat, to: nat, f: nat)
    requires Owned(dirs, tabs, owner0) && d in dirs && from <= v <= to <= KERNPAGE
    requires AbsentFrom(dirs, tabs, d, from, to - from)
    requires GrewRoles(owner0, owner1, d, from, v) && Unowns(owner', owner2, d, from, to)
    requires if f == 0 then owner' == owner1 else f !in owner1 && owner' == owner1[f := Other]
    ensures f != 0 ==> f !in owner0 && f in owner2 && owner2[f] == Other
    ensures var owner3 := if f == 0 then owner2 else owner2 - {f};
            RolesKept(owner0, owner3) && NewOnly(owner0, owner3, d)
  {
    var owner3 := if f == 0 then owner2 else owner2 - {f};
    if f != 0 {
      assert UnownsAt(owner', owner2, d, from, to, f) && GrewRoleAt(owner0, owner1, d, from, v, f);
    }
    forall g ensures UnownsAt(owner1, owner3, d, from, to, g) {
      assert UnownsAt(owner', owner2, d, from, to, g);
    }
    GrewRolesUndone(dirs, tabs, owner0, owner1, owner3, d, from, v, to);
  }

  lemma UndonePages(owner0: Owner, owner: Owner, pages0: Pages, pages1: Pages, pages: Pages, f: nat)
    requires PagesKept(owner0, pages0, pages1) && PagesKept(owner, pages1, pages)
    requires f != 0 ==> f !in owner0
    requires RolesKept(owner0, if f == 0 then owner else owner - {f})
    ensures PagesKept(owner0, pages0, pages)
    ensures PagesKept(owner0, pages0, if f == 0 then pages else pages[f := Filled(1)])
  {
    forall g | g in owner0 && owner0[g].User?
      ensures PageKept(pages0, pages, g) && PageKept(pages0, if f == 0 then pages else pages[f := Filled(1)], g)
    {
      assert RoleKept(owner0, if f == 0 then owner else owner - {f}, g);
      assert PageKept(pages0, pages1, g) && PageKept(pages1, pages, g);
    }
  }

  /** Filling a frame that was not in use. */
  lemma FreshPage(owner0: Owner, owner1: Owner, pages0: Pages, pages1: Pages, d: nat, from: nat, v: nat, f: nat,
                  p: Page)
    requires PagesKept(owner0, pages0, pages1) && GrewRoles(owner0, owner1, d, from, v) && f !in owner1
    ensures PagesKept(owner0, pages0, pages1[f := p])
  {
    var pages := pages1[f := p];
    assert GrewRoleAt(owner0, owner1, d, from, v, f);
    forall g | g in owner0 && owner0[g].User? ensures PageKept(pages0, pages, g) {
      assert PageKept(pages0, pages1, g);
    }
  }

  // ---------------------------------------------------------------------- copying

  ghost predicate CopiedAt(dirs0: Dirs, tabs0: Tables, pages0: Pages, dirs: Dirs, tabs: Tables, pages: Pages, d: nat,
                           c: nat, v: nat, x: nat)
    requires d in dirs0 && c in dirs && x < KERNPAGE
  {
    if x < v then
      && CellAt(dirs, tabs, pages, c, x) == CellAt(dirs0, tabs0, pages0, d, x)
      && (Entry(dirs, tabs, c, x).Map? <==> Entry(dirs0, tabs0, d, x).Map?)
    else Entry(dirs, tabs, c, x) == Absent
  }

  /** Pages below v of directory c are copies of those of d; it has no others. */
  ghost predicate Copied(dirs0: Dirs, tabs0: Tables, pages0: Pages, dirs: Dirs, tabs: Tables, pages: Pages, d: nat,
                         c: nat, v: nat) {
    && d in dirs0 && c in dirs
    && forall x :: 0 <= x < KERNPAGE ==> CopiedAt(dirs0, tabs0, pages0, dirs, tabs, pages, d, c, v, x)
  }

  lemma CopiedNone(dirs0: Dirs, tabs0: Tables, pages0: Pages, dirs: Dirs, tabs: Tables, pages: Pages, d: nat, c: nat,
                   dataPage: nat)
    requires KernelPart(dirs, tabs, c, dataPage, 4) && d in dirs0
    ensures Copied(dirs0, tabs0, pages0, dirs, tabs, pages, d, c, 0)
  {
    forall x | 0 <= x < KERNPAGE ensures CopiedAt(dirs0, tabs0, pages0, dirs, tabs, pages, d, c, 0, x) {
      assert KernelAt(dirs, tabs, c, dataPage, 4, x);
    }
  }

  lemma CopiedSkip(dirs0: Dirs, tabs0: Tables, pages0: Pages, dirs: Dirs, tabs: Tables, pages: Pages, d: nat, c: nat,
                   v: nat)
    requires Copied(dirs0, tabs0, pages0, dirs, tabs, pages, d, c, v) && v < KERNPAGE
    requires Entry(dirs0, tabs0, d, v) == Absent
    ensures Copied(dirs0, tabs0, pages0, dirs, tabs, pages, d, c, v + 1)
  {
    var w := v + 1;
    forall x | 0 <= x < KERNPAGE ensures CopiedAt(dirs0, tabs0, pages0, dirs, tabs, pages, d, c, w, x) {
      assert CopiedAt(dirs0, tabs0, pages0, dirs, tabs, pages, d, c, v, x);
    }
  }

  /** Page v copied into a frame that was not in use. */
  lemma CopiedMore(dirs0: Dirs, tabs0: Tables, pages0: Pages, dirs: Dirs, tabs: Tables, owner: Owner, pages: Pages,
                   dirs': Dirs, tabs': Tables, d: nat, c: nat, v: nat, e: Pte, f: nat)
    requires Copied(dirs0, tabs0, pages0, dirs, tabs, pages, d, c, v) && v < KERNPAGE && Owned(dirs, tabs, owner)
    requires Entry(dirs0, tabs0, d, v) == e && e.Map? && f !in owner
    requires Maps(dirs, tabs, dirs', tabs', c, v, 1, e.(frame := f))
    ensures Copied(dirs0, tabs0, pages0, dirs', tabs', pages[f := Contents(pages0, e.frame)], d, c, v + 1)
  {
    var w, pages', e' := v + 1, pages[f := Contents(pages0, e.frame)], e.(frame := f);
    assert MapsIn(dirs, tabs, dirs', tabs', c, v, 1, e', c);
    forall x | 0 <= x < KERNPAGE ensures CopiedAt(dirs0, tabs0, pages0, dirs', tabs', pages', d, c, w, x) {
      assert CopiedAt(dirs0, tabs0, pages0, dirs, tabs, pages, d, c, v, x);
      assert MapsEntry(dirs, tabs, dirs', tabs', c, v, 1, e', c, x);
      if Entry(dirs, tabs, c, x).Map? {
        MappedIsOwned(dirs, tabs, owner, c, x);
      }
    }
  }

  lemma NewForPage(owner: Owner, owner1: Owner, owner2: Owner, d: nat, v: nat, f: nat)
    requires RolesKept(owner, owner1) && NewFor(owner, owner1, d) && f !in owner1
    requires RolesBut(owner1[f := Other], owner2, f) && f in owner2 && owner2[f] == User(d, v)
    requires NewOnly(owner1[f := Other], owner2, d)
    ensures RolesKept(owner, owner2) && NewFor(owner, owner2, d)
  {
    forall g ensures NewForAt(owner, owner2, d, g) && (g in owner ==> RoleKept(owner, owner2, g)) {
      assert NewForAt(owner, owner1, d, g) && NewAt(owner1[f := Other], owner2, d, g);
      if g in owner {
        assert RoleKept(owner, owner1, g);
      }
      if g in owner1 {
        assert RoleKept(owner1[f := Other], owner2, g);
      }
    }
  }

  /** Page v is copied: to frame f, with the flags of the original. */
  lemma PageCopied(dirs0: Dirs, tabs0: Tables, owner0: Owner, pages0: Pages, dirs1: Dirs, tabs1: Tables, owner1: Owner,
                   pages1: Pages,
                   dirs: Dirs, tabs: Tables, owner: Owner, pages: Pages, d: nat, c: nat, v: nat, e: Pte, f: nat)
    requires Copied(dirs0, tabs0, pages0, dirs1, tabs1, pages1, d, c, v) && v < KERNPAGE && Owned(dirs1, tabs1, owner1)
    requires Entry(dirs0, tabs0, d, v) == e && e.Map? && f !in owner1 && c !in dirs0
    requires AllSame(dirs0, tabs0, dirs1, tabs1)
    requires Maps(dirs1, tabs1, dirs, tabs, c, v, 1, e.(frame := f)) && pages == pages1[f := Contents(pages0, e.frame)]
    requires RolesKept(owner0, owner1) && NewFor(owner0, owner1, c)
    requires RolesBut(owner1[f := Other], owner, f) && f in owner && owner[f] == User(c, v)
    requires NewOnly(owner1[f := Other], owner, c)
    ensures Copied(dirs0, tabs0, pages0, dirs, tabs, pages, d, c, v + 1) && AllSame(dirs0, tabs0, dirs, tabs)
    ensures RolesKept(owner0, owner) && NewFor(owner0, owner, c)
  {
    SameAfterMaps(dirs0, tabs0, dirs1, tabs1, dirs, tabs, c, v, 1, e.(frame := f));
    CopiedMore(dirs0, tabs0, pages0, dirs1, tabs1, owner1, pages1, dirs, tabs, d, c, v, e, f);
    NewForPage(owner0, owner1, owner, c, v, f);
  }

  lemma AddedAndRemoved(owner: Owner, f: nat, role: Role)
    requires f !in owner
    ensures owner[f := role] - {f} == owner
  {
  }

  lemma FilledUnused(owner: Owner, owner1: Owner, pages0: Pages, pages1: Pages, f: nat, p: Page)
    requires PagesKept(owner, pages0, pages1) && RolesKept(owner, owner1) && f !in owner1
    ensures PagesKept(owner, pages0, pages1[f := p])
  {
    var pages := pages1[f := p];
    forall g | g in owner && owner[g].User? ensures PageKept(pages0, pages, g) {
      assert PageKept(pages0, pages1, g) && RoleKept(owner, owner1, g);
    }
  }

  /** A page that nobody maps any more keeps what it holds for those that are mapped. */
  lemma KeptTwice(owner: Owner, owner2: Owner, pages0: Pages, pages1: Pages, pages2: Pages)
    requires PagesKept(owner, pages0, pages1) && PagesKept(owner2, pages1, pages2) && owner2 == owner
    ensures PagesKept(owner, pages0, pages2)
  {
    forall g | g in owner && owner[g].User? ensures PageKept(pages0, pages2, g) {
      assert PageKept(pages0, pages1, g) && PageKept(pages1, pages2, g);
    }
  }
}
