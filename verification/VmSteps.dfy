/** What the steps of vm.c do to page table entries, to the use of frames and to the free list. */
module VmSteps {
  import opened Common
  import opened Counting
  import opened PageTables

  const KERNBASE := KERNPAGE * PGSIZE
  const PHYSPAGES := 57344            // PHYSTOP / PGSIZE
  const DEVPAGE := 1040384            // DEVSPACE / PGSIZE

  /** Pages that sz bytes take: PGROUNDUP(sz) / PGSIZE. */
  function PagesOf(sz: nat): nat {
    (sz + PGSIZE - 1) / PGSIZE
  }

  /** The entries of every directory are what they were. */
  ghost predicate AllSame(dirs: Dirs, tabs: Tables, dirs': Dirs, tabs': Tables) {
    forall d {:trigger SameEntries(dirs, tabs, dirs', tabs', d)} ::
      d in dirs ==> SameEntries(dirs, tabs, dirs', tabs', d)
  }

  ghost predicate RoleKept(owner: Owner, owner': Owner, f: nat) {
    f in owner ==> f in owner' && owner'[f] == owner[f]
  }

  /** Frames in use stay in the same use. */
  ghost predicate RolesKept(owner: Owner, owner': Owner) {
    forall f :: f in owner ==> RoleKept(owner, owner', f)
  }

  ghost predicate NewAt(owner: Owner, owner': Owner, d: nat, f: nat) {
    f in owner' && f !in owner ==> owner'[f].TableOf? && owner'[f].dir == d
  }

  /** Frames newly in use are page tables of directory d. */
  ghost predicate NewOnly(owner: Owner, owner': Owner, d: nat) {
    forall f :: NewAt(owner, owner', d, f)
  }

  lemma NewOnlyTrans(owner: Owner, owner1: Owner, owner2: Owner, d: nat)
    requires NewOnly(owner, owner1, d) && NewOnly(owner1, owner2, d)
    requires RolesKept(owner1, owner2)
    ensures NewOnly(owner, owner2, d)
  {
    forall f ensures NewAt(owner, owner2, d, f) {
      assert NewAt(owner, owner1, d, f) && NewAt(owner1, owner2, d, f);
      assert f in owner1 ==> RoleKept(owner1, owner2, f);
    }
  }

  lemma SpareFrame(dirs: Dirs, tabs: Tables, owner: Owner, f: nat)
    requires Owned(dirs, tabs, owner) && f !in owner
    ensures Owned(dirs, tabs, owner[f := Other])
  {
    var owner' := owner[f := Other];
    forall d | d in dirs ensures DirOwned(dirs, tabs, owner', d) {
      assert DirOwned(dirs, tabs, owner, d);
      forall i | 0 <= i < NENTRIES ensures TableSlot(dirs, tabs, owner', d, i) {
        assert TableSlot(dirs, tabs, owner, d, i);
      }
      forall vpn | 0 <= vpn < KERNPAGE ensures PageSlot(dirs, tabs, owner', d, vpn) {
        assert PageSlot(dirs, tabs, owner, d, vpn);
      }
    }
    forall g | g in owner' ensures Placed(dirs, tabs, owner', g) {
      if g != f {
        assert Placed(dirs, tabs, owner, g);
      }
    }
  }

  lemma SpareFreed(dirs: Dirs, tabs: Tables, owner: Owner, f: nat)
    requires Owned(dirs, tabs, owner) && f in owner && owner[f] == Other
    ensures Owned(dirs, tabs, owner - {f})
  {
    var owner' := owner - {f};
    forall d | d in dirs ensures DirOwned(dirs, tabs, owner', d) {
      assert DirOwned(dirs, tabs, owner, d);
      forall i | 0 <= i < NENTRIES ensures TableSlot(dirs, tabs, owner', d, i) {
        assert TableSlot(dirs, tabs, owner, d, i);
      }
      forall vpn | 0 <= vpn < KERNPAGE ensures PageSlot(dirs, tabs, owner', d, vpn) {
        assert PageSlot(dirs, tabs, owner, d, vpn);
      }
    }
    forall g | g in owner' ensures Placed(dirs, tabs, owner', g) {
      assert Placed(dirs, tabs, owner, g);
    }
  }

  lemma FreeTaken(lo: nat, hi: nat, free: seq<nat>, owner: Owner, role: Role)
    requires Conserved(lo, hi, free, owner) && free != []
    ensures free[0] !in owner && 0 < free[0] && Conserved(lo, hi, free[1..], owner[free[0] := role])
  {
    assert free[0] in free;
    assert InRange(free[0], lo, hi);
    assert forall f :: f in free <==> f == free[0] || f in free[1..];
    var owner' := owner[free[0] := role];
    forall f ensures InRange(f, lo, hi) <==> f in owner' || f in free[1..] {}
  }

  lemma FreeAdded(lo: nat, f: nat, free: seq<nat>)
    requires Conserved(lo, f, free, map[]) && lo <= f
    ensures Conserved(lo, f + 1, [f] + free, map[])
  {
    var free', n := [f] + free, f + 1;
    forall g ensures InRange(g, lo, n) <==> g in free' {
      assert g in free' <==> g == f || g in free;
      assert InRange(g, lo, f) <==> g in free;
    }
    forall i, j | 0 <= i < j < |free'| ensures free'[i] != free'[j] {
      assert free'[j] == free[j - 1] && free[j - 1] in free;
      assert InRange(free[j - 1], lo, f);
    }
  }

  lemma FreeGiven(lo: nat, hi: nat, free: seq<nat>, owner: Owner, f: nat)
    requires Conserved(lo, hi, free, owner) && f in owner
    ensures InRange(f, lo, hi) && Conserved(lo, hi, [f] + free, owner - {f})
  {
    assert InRange(f, lo, hi);
    var free', owner' := [f] + free, owner - {f};
    forall g ensures InRange(g, lo, hi) <==> g in owner' || g in free' {
      assert g in free' <==> g == f || g in free;
    }
    forall i, j | 0 <= i < j < |free'| ensures free'[i] != free'[j] {
      assert free'[j] == free[j - 1] && free[j - 1] in free;
    }
  }

  lemma AllSameRefl(dirs: Dirs, tabs: Tables)
    ensures AllSame(dirs, tabs, dirs, tabs)
  {
    forall d | d in dirs ensures SameEntries(dirs, tabs, dirs, tabs, d) {}
  }

  lemma RolesKeptTrans(owner: Owner, owner1: Owner, owner2: Owner)
    requires RolesKept(owner, owner1) && RolesKept(owner1, owner2)
    ensures RolesKept(owner, owner2)
  {
    forall f | f in owner ensures RoleKept(owner, owner2, f) {
      assert RoleKept(owner, owner1, f);
      assert RoleKept(owner1, owner2, f);
    }
  }

  lemma AddTableSame(dirs: Dirs, tabs: Tables, owner: Owner, d: nat, i: nat, t: nat)
    requires Owned(dirs, tabs, owner) && d in dirs && i < NENTRIES && dirs[d][i] == 0
    requires t in owner && owner[t] == Other && t != 0
    ensures AllSame(dirs, tabs, AddTable(dirs, d, i, t), tabs[t := NoPages()])
  {
    var dirs', tabs' := AddTable(dirs, d, i, t), tabs[t := NoPages()];
    forall e | e in dirs ensures SameEntries(dirs, tabs, dirs', tabs', e) {
      forall vpn | 0 <= vpn < ALLPAGES ensures EntrySame(dirs, tabs, dirs', tabs', e, vpn) {
        AddTableEntry(dirs, tabs, owner, d, i, t, e, vpn);
      }
    }
  }

  // -------------------------------------------------------- pages v, ..., v + count - 1

  ghost predicate MapsEntry(dirs: Dirs, tabs: Tables, dirs': Dirs, tabs': Tables, d: nat, v: nat, count: nat, e: Pte,
                            d2: nat, vpn: nat)
    requires d2 in dirs && d2 in dirs' && vpn < ALLPAGES && e.Map?
  {
    Entry(dirs', tabs', d2, vpn) ==
      if d2 == d && v <= vpn < v + count then e.(frame := e.frame + (vpn - v)) else Entry(dirs, tabs, d2, vpn)
  }

  ghost predicate MapsIn(dirs: Dirs, tabs: Tables, dirs': Dirs, tabs': Tables, d: nat, v: nat, count: nat, e: Pte,
                         d2: nat) {
    && e.Map? && d2 in dirs && d2 in dirs'
    && forall vpn :: 0 <= vpn < ALLPAGES ==> MapsEntry(dirs, tabs, dirs', tabs', d, v, count, e, d2, vpn)
  }

  /** In directory d, `count` pages from v are mapped to consecutive frames from that of e; no other entry changes. */
  ghost predicate Maps(dirs: Dirs, tabs: Tables, dirs': Dirs, tabs': Tables, d: nat, v: nat, count: nat, e: Pte) {
    && e.Map? && dirs'.Keys == dirs.Keys
    && forall d2 {:trigger MapsIn(dirs, tabs, dirs', tabs', d, v, count, e, d2)} ::
         d2 in dirs ==> MapsIn(dirs, tabs, dirs', tabs', d, v, count, e, d2)
  }

  lemma MapsNone(dirs: Dirs, tabs: Tables, d: nat, v: nat, e: Pte)
    requires e.Map?
    ensures Maps(dirs, tabs, dirs, tabs, d, v, 0, e)
  {
    forall d2 | d2 in dirs ensures MapsIn(dirs, tabs, dirs, tabs, d, v, 0, e, d2) {}
  }

  /** walkpgdir and then `*pte = ...`. */
  lemma MapsOne(dirs: Dirs, tabs: Tables, dirs1: Dirs, tabs1: Tables, owner1: Owner, d: nat, v: nat, e: Pte)
    requires AllSame(dirs, tabs, dirs1, tabs1) && dirs1.Keys == dirs.Keys && Owned(dirs1, tabs1, owner1) && e.Map?
    requires d in dirs1 && v < ALLPAGES && dirs1[d][v / NENTRIES] in tabs1 && dirs1[d][v / NENTRIES] != 0
    ensures Maps(dirs, tabs, dirs1, SetEntry(dirs1, tabs1, d, v, e), d, v, 1, e)
  {
    var tabs2 := SetEntry(dirs1, tabs1, d, v, e);
    forall d2 | d2 in dirs ensures MapsIn(dirs, tabs, dirs1, tabs2, d, v, 1, e, d2) {
      assert SameEntries(dirs, tabs, dirs1, tabs1, d2);
      forall vpn | 0 <= vpn < ALLPAGES ensures MapsEntry(dirs, tabs, dirs1, tabs2, d, v, 1, e, d2, vpn) {
        assert EntrySame(dirs, tabs, dirs1, tabs1, d2, vpn);
        SetEntryEntry(dirs1, tabs1, owner1, d, v, e, d2, vpn);
      }
    }
  }

  lemma MapsMore(dirs: Dirs, tabs: Tables, dirs1: Dirs, tabs1: Tables, dirs2: Dirs, tabs2: Tables, d: nat, v: nat,
                 k: nat, e: Pte)
    requires Maps(dirs, tabs, dirs1, tabs1, d, v, k, e)
    requires Maps(dirs1, tabs1, dirs2, tabs2, d, v + k, 1, e.(frame := e.frame + k))
    ensures Maps(dirs, tabs, dirs2, tabs2, d, v, k + 1, e)
  {
    var e1, n := e.(frame := e.frame + k), k + 1;
    forall d2 | d2 in dirs ensures MapsIn(dirs, tabs, dirs2, tabs2, d, v, n, e, d2) {
      assert MapsIn(dirs, tabs, dirs1, tabs1, d, v, k, e, d2);
      assert MapsIn(dirs1, tabs1, dirs2, tabs2, d, v + k, 1, e1, d2);
      forall vpn | 0 <= vpn < ALLPAGES ensures MapsEntry(dirs, tabs, dirs2, tabs2, d, v, n, e, d2, vpn) {
        assert MapsEntry(dirs, tabs, dirs1, tabs1, d, v, k, e, d2, vpn);
        assert MapsEntry(dirs1, tabs1, dirs2, tabs2, d, v + k, 1, e1, d2, vpn);
      }
    }
  }

  /** Roles after frame f, if any, has been mapped. */
  ghost predicate RolesBut(owner: Owner, owner': Owner, f: nat) {
    forall g :: g in owner && g != f ==> RoleKept(owner, owner', g)
  }

  // -------------------------------------------------------- freeing a directory

  ghost predicate NoUserPages0(dirs: Dirs, tabs: Tables, d: nat) {
    d in dirs && NoUserPages(dirs, tabs, d)
  }

  /** Entries below i of directory d are gone from the shadow g. */
  ghost predicate Cleared(dirs: Dirs, g: Dirs, d: nat, i: nat) {
    && d in dirs && d in g && g == dirs[d := g[d]]
    && forall j :: 0 <= j < NENTRIES ==> g[d][j] == if j < i then 0 else dirs[d][j]
  }

  /** No other directory changes. */
  ghost predicate OthersSame(dirs: Dirs, tabs: Tables, dirs': Dirs, tabs': Tables, d: nat) {
    forall e {:trigger SameEntries(dirs, tabs, dirs', tabs', e)} ::
      e in dirs && e != d ==> SameEntries(dirs, tabs, dirs', tabs', e)
  }

  ghost predicate DropsTablesAt(owner: Owner, owner': Owner, d: nat, i: nat, f: nat) {
    && (f in owner' <==> f in owner && !(owner[f].TableOf? && owner[f].dir == d && owner[f].pdx < i))
    && (f in owner' ==> owner'[f] == owner[f])
  }

  ghost predicate DropsTables(owner: Owner, owner': Owner, d: nat, i: nat) {
    forall f :: DropsTablesAt(owner, owner', d, i, f)
  }

  /** The frame is directory d, one of its tables, or one of its user pages. */
  ghost predicate BelongsTo(owner: Owner, f: nat, d: nat)
    requires f in owner
  {
    f == d || (owner[f].TableOf? && owner[f].dir == d) || (owner[f].User? && owner[f].dir == d)
  }

  ghost predicate DropsAt(owner: Owner, owner': Owner, d: nat, f: nat) {
    && (f in owner' <==> f in owner && !BelongsTo(owner, f, d))
    && (f in owner' ==> owner'[f] == owner[f])
  }

  /** Exactly the frames of directory d are no longer in use. */
  ghost predicate Drops(owner: Owner, owner': Owner, d: nat) {
    forall f :: DropsAt(owner, owner', d, f)
  }

  lemma AllCleared(dirs: Dirs, tabs0: Tables, g: Dirs, tabs: Tables, d: nat)
    requires Cleared(dirs, g, d, NENTRIES) && OthersSame(dirs, tabs0, g, tabs, d)
    ensures g == dirs[d := NoTables()] && OthersSame(dirs, tabs0, dirs, tabs, d)
  {
    assert g[d] == NoTables();
    forall e | e in dirs && e != d ensures SameEntries(dirs, tabs0, dirs, tabs, e) {
      assert SameEntries(dirs, tabs0, g, tabs, e);
      forall vpn | 0 <= vpn < ALLPAGES ensures EntrySame(dirs, tabs0, dirs, tabs, e, vpn) {
        assert EntrySame(dirs, tabs0, g, tabs, e, vpn);
      }
    }
  }

  lemma DropTableOthers(dirs: Dirs, tabs0: Tables, g: Dirs, tabs: Tables, owner: Owner, d: nat, i: nat)
    requires OthersSame(dirs, tabs0, g, tabs, d) && Owned(g, tabs, owner) && d in g && g.Keys == dirs.Keys
    requires i < NENTRIES && g[d][i] != 0
    ensures OthersSame(dirs, tabs0, AddTable(g, d, i, 0), tabs - {g[d][i]}, d)
  {
    var g', tabs' := AddTable(g, d, i, 0), tabs - {g[d][i]};
    forall e | e in dirs && e != d ensures SameEntries(dirs, tabs0, g', tabs', e) {
      assert SameEntries(dirs, tabs0, g, tabs, e);
      forall vpn | 0 <= vpn < ALLPAGES ensures EntrySame(dirs, tabs0, g', tabs', e, vpn) {
        assert EntrySame(dirs, tabs0, g, tabs, e, vpn);
        DropTableEntry(g, tabs, owner, d, i, e, vpn);
      }
    }
  }

  lemma DropTableRoles(g: Dirs, tabs: Tables, owner0: Owner, owner: Owner, d: nat, i: nat)
    requires DropsTables(owner0, owner, d, i) && Owned(g, tabs, owner) && d in g && i < NENTRIES && g[d][i] != 0
    ensures DropsTables(owner0, owner - {g[d][i]}, d, i + 1)
  {
    var owner', n := owner - {g[d][i]}, i + 1;
    TableIsOwned(g, tabs, owner, d, i);
    forall f ensures DropsTablesAt(owner0, owner', d, n, f) {
      assert DropsTablesAt(owner0, owner, d, i, f);
      if f in owner && owner[f] == TableOf(d, i) {
        assert Placed(g, tabs, owner, f);
      }
    }
  }

  lemma NoTableRoles(g: Dirs, tabs: Tables, owner0: Owner, owner: Owner, d: nat, i: nat)
    requires DropsTables(owner0, owner, d, i) && Owned(g, tabs, owner) && d in g && i < NENTRIES && g[d][i] == 0
    ensures DropsTables(owner0, owner, d, i + 1)
  {
    var n := i + 1;
    forall f ensures DropsTablesAt(owner0, owner, d, n, f) {
      assert DropsTablesAt(owner0, owner, d, i, f);
      if f in owner && owner[f] == TableOf(d, i) {
        assert Placed(g, tabs, owner, f);
      }
    }
  }

  lemma AllUnmapped(dirs: Dirs, tabs0: Tables, tabs: Tables, d: nat)
    requires Unmaps(dirs, tabs0, tabs, d, 0, KERNPAGE) && d in dirs
    ensures NoUserPages(dirs, tabs, d) && OthersSame(dirs, tabs0, dirs, tabs, d)
  {
    forall vpn | 0 <= vpn < KERNPAGE ensures Entry(dirs, tabs, d, vpn) == Absent {
      UnmapsEntry(dirs, tabs0, tabs, d, 0, KERNPAGE, d, vpn);
    }
    forall e | e in dirs && e != d ensures SameEntries(dirs, tabs0, dirs, tabs, e) {
      forall vpn | 0 <= vpn < ALLPAGES ensures EntrySame(dirs, tabs0, dirs, tabs, e, vpn) {
        UnmapsEntry(dirs, tabs0, tabs, d, 0, KERNPAGE, e, vpn);
      }
    }
  }

  lemma NothingUnmapped(dirs: Dirs, tabs: Tables, owner: Owner, d: nat)
    requires Owned(dirs, tabs, owner) && d in dirs && NoUserPages(dirs, tabs, d)
    ensures Unowns(owner, owner, d, 0, KERNPAGE) && OthersSame(dirs, tabs, dirs, tabs, d)
  {
    forall f ensures UnownsAt(owner, owner, d, 0, KERNPAGE, f) {
      if f in owner {
        assert Placed(dirs, tabs, owner, f);
      }
    }
    forall e | e in dirs && e != d ensures SameEntries(dirs, tabs, dirs, tabs, e) {}
  }

  lemma DropsAll(dirs: Dirs, tabs: Tables, owner0: Owner, owner1: Owner, owner2: Owner, d: nat)
    requires Owned(dirs, tabs, owner0) && d in dirs
    requires Unowns(owner0, owner1, d, 0, KERNPAGE) && DropsTables(owner1, owner2, d, NENTRIES)
    ensures Drops(owner0, owner2 - {d}, d)
  {
    var owner3 := owner2 - {d};
    assert DirOwned(dirs, tabs, owner0, d);
    forall f ensures DropsAt(owner0, owner3, d, f) {
      assert UnownsAt(owner0, owner1, d, 0, KERNPAGE, f) && DropsTablesAt(owner1, owner2, d, NENTRIES, f);
      if f in owner0 {
        assert Placed(dirs, tabs, owner0, f);
      }
    }
  }

  lemma KeptThrice(owner1: Owner, owner2: Owner, pages0: Pages, pages1: Pages, pages2: Pages, d: nat)
    requires PagesKept(owner1, pages0, pages1) && PagesKept(owner2, pages1, pages2)
    requires DropsTables(owner1, owner2, d, NENTRIES)
    ensures PagesKept(owner2 - {d}, pages0, pages2[d := Filled(1)])
  {
    var owner3, pages3 := owner2 - {d}, pages2[d := Filled(1)];
    forall f | f in owner3 && owner3[f].User? ensures PageKept(pages0, pages3, f) {
      assert DropsTablesAt(owner1, owner2, d, NENTRIES, f);
      assert PageKept(pages0, pages1, f) && PageKept(pages1, pages2, f);
    }
  }

  lemma OthersSameDrop(dirs: Dirs, tabs0: Tables, tabs1: Tables, tabs2: Tables, d: nat)
    requires OthersSame(dirs, tabs0, dirs, tabs1, d) && OthersSame(dirs, tabs1, dirs, tabs2, d)
    ensures OthersSame(dirs, tabs0, dirs - {d}, tabs2, d)
  {
    var dirs' := dirs - {d};
    forall e | e in dirs && e != d ensures SameEntries(dirs, tabs0, dirs', tabs2, e) {
      assert SameEntries(dirs, tabs0, dirs, tabs1, e) && SameEntries(dirs, tabs1, dirs, tabs2, e);
      forall vpn | 0 <= vpn < ALLPAGES ensures EntrySame(dirs, tabs0, dirs', tabs2, e, vpn) {
        assert EntrySame(dirs, tabs0, dirs, tabs1, e, vpn) && EntrySame(dirs, tabs1, dirs, tabs2, e, vpn);
      }
    }
  }

  /** First page of the next page table: PGADDR(PDX(a) + 1, 0, 0). */
  function NextTable(v: nat): (w: nat)
    ensures v < w
  {
    (v / NENTRIES + 1) * NENTRIES
  }

  lemma BelowEnd(v: nat, sz: nat)
    ensures v * PGSIZE < sz <==> v < PagesOf(sz)
  {
  }

  lemma SkipTable(dirs: Dirs, tabs0: Tables, tabs: Tables, owner0: Owner, owner: Owner, d: nat, first: nat, v: nat,
                  last: nat, free: seq<nat>)
    requires Owned(dirs, tabs, owner) && d in dirs && first <= v < last <= KERNPAGE && dirs[d][v / NENTRIES] == 0
    requires Unmaps(dirs, tabs0, tabs, d, first, v) && Unowns(owner0, owner, d, first, v)
    ensures var next := NextTable(v);
            && Unmaps(dirs, tabs0, tabs, d, first, Cap(next, last)) && Unowns(owner0, owner, d, first, Cap(next, last))
            && Scan(dirs, tabs0, d, v, last, free) == Scan(dirs, tabs0, d, next, last, free)
  {
    var to := Cap(NextTable(v), last);
    AbsentTable(dirs, tabs, d, v);
    AbsentMore(dirs, tabs0, tabs, owner0, owner, d, first, v, to);
    ScanSkips(dirs, tabs0, d, v, to, last, free);
  }

  function Cap(v: nat, last: nat): nat {
    if v < last then v else last
  }

  ghost predicate UnmapsAt(dirs: Dirs, tabs: Tables, tabs': Tables, d: nat, from: nat, to: nat, d2: nat, vpn: nat)
    requires d2 in dirs && vpn < ALLPAGES
  {
    Entry(dirs, tabs', d2, vpn) == if d2 == d && from <= vpn < to then Absent else Entry(dirs, tabs, d2, vpn)
  }

  ghost predicate UnmapsIn(dirs: Dirs, tabs: Tables, tabs': Tables, d: nat, from: nat, to: nat, d2: nat) {
    d2 in dirs && forall vpn :: 0 <= vpn < ALLPAGES ==> UnmapsAt(dirs, tabs, tabs', d, from, to, d2, vpn)
  }

  /** Pages from..to of directory d become absent; no other entry changes. */
  ghost predicate Unmaps(dirs: Dirs, tabs: Tables, tabs': Tables, d: nat, from: nat, to: nat) {
    forall d2 {:trigger UnmapsIn(dirs, tabs, tabs', d, from, to, d2)} ::
      d2 in dirs ==> UnmapsIn(dirs, tabs, tabs', d, from, to, d2)
  }

  /** The frame was that of one of pages from..to of directory d. */
  ghost predicate WasPage(owner: Owner, f: nat, d: nat, from: nat, to: nat)
    requires f in owner
  {
    owner[f].User? && owner[f].dir == d && from <= owner[f].vpn < to
  }

  ghost predicate UnownsAt(owner: Owner, owner': Owner, d: nat, from: nat, to: nat, f: nat) {
    && (f in owner' <==> f in owner && !WasPage(owner, f, d, from, to))
    && (f in owner' ==> owner'[f] == owner[f])
  }

  /** Exactly the frames of pages from..to of directory d are no longer in use. */
  ghost predicate Unowns(owner: Owner, owner': Owner, d: nat, from: nat, to: nat) {
    forall f :: UnownsAt(owner, owner', d, from, to, f)
  }

  /** The free list after looking at every page from..to in turn. */
  ghost function Scan(dirs: Dirs, tabs: Tables, d: nat, from: nat, to: nat, free: seq<nat>): seq<nat>
    requires d in dirs && to <= ALLPAGES
    decreases if from < to then to - from else 0
  {
    if from >= to then free
    else
      var e := Entry(dirs, tabs, d, from);
      Scan(dirs, tabs, d, from + 1, to, if e.Map? then [e.frame] + free else free)
  }

  lemma UnmapsOne(dirs: Dirs, tabs: Tables, owner: Owner, d: nat, vpn: nat)
    requires Owned(dirs, tabs, owner) && d in dirs && vpn < KERNPAGE && dirs[d][vpn / NENTRIES] in tabs
    requires dirs[d][vpn / NENTRIES] != 0
    ensures Unmaps(dirs, tabs, SetEntry(dirs, tabs, d, vpn, Absent), d, vpn, vpn + 1)
  {
    var tabs', to := SetEntry(dirs, tabs, d, vpn, Absent), vpn + 1;
    forall d2 | d2 in dirs ensures UnmapsIn(dirs, tabs, tabs', d, vpn, to, d2) {
      forall v2 | 0 <= v2 < ALLPAGES ensures UnmapsAt(dirs, tabs, tabs', d, vpn, to, d2, v2) {
        SetEntryEntry(dirs, tabs, owner, d, vpn, Absent, d2, v2);
      }
    }
  }

  lemma UnmapsNone(dirs: Dirs, tabs: Tables, d: nat, v: nat)
    ensures Unmaps(dirs, tabs, tabs, d, v, v)
  {
    forall d2 | d2 in dirs ensures UnmapsIn(dirs, tabs, tabs, d, v, v, d2) {}
  }

  lemma UnmapsEntry(dirs: Dirs, tabs: Tables, tabs': Tables, d: nat, from: nat, to: nat, d2: nat, vpn: nat)
    requires Unmaps(dirs, tabs, tabs', d, from, to) && d2 in dirs && vpn < ALLPAGES
    ensures UnmapsAt(dirs, tabs, tabs', d, from, to, d2, vpn)
  {
    assert UnmapsIn(dirs, tabs, tabs', d, from, to, d2);
  }

  lemma UnmapsMore(dirs: Dirs, tabs: Tables, tabs1: Tables, tabs2: Tables, d: nat, from: nat, v: nat, to: nat)
    requires Unmaps(dirs, tabs, tabs1, d, from, v) && Unmaps(dirs, tabs1, tabs2, d, v, to) && from <= v <= to
    ensures Unmaps(dirs, tabs, tabs2, d, from, to)
  {
    forall d2 | d2 in dirs ensures UnmapsIn(dirs, tabs, tabs2, d, from, to, d2) {
      forall vpn | 0 <= vpn < ALLPAGES ensures UnmapsAt(dirs, tabs, tabs2, d, from, to, d2, vpn) {
        UnmapsEntry(dirs, tabs, tabs1, d, from, v, d2, vpn);
        UnmapsEntry(dirs, tabs1, tabs2, d, v, to, d2, vpn);
      }
    }
  }

  /** A stretch that is absent already. */
  lemma UnmapsAbsent(dirs: Dirs, tabs: Tables, tabs': Tables, d: nat, from: nat, v: nat, to: nat)
    requires Unmaps(dirs, tabs, tabs', d, from, v) && d in dirs && from <= v <= to <= ALLPAGES
    requires forall x :: v <= x < to ==> Entry(dirs, tabs, d, x) == Absent
    ensures Unmaps(dirs, tabs, tabs', d, from, to)
  {
    forall d2 | d2 in dirs ensures UnmapsIn(dirs, tabs, tabs', d, from, to, d2) {
      forall vpn | 0 <= vpn < ALLPAGES ensures UnmapsAt(dirs, tabs, tabs', d, from, to, d2, vpn) {
        UnmapsEntry(dirs, tabs, tabs', d, from, v, d2, vpn);
      }
    }
  }

  /** The next page of the range is still absent. */
  lemma MapsAbsent(dirs: Dirs, tabs: Tables, dirs': Dirs, tabs': Tables, d: nat, v: nat, k: nat, count: nat, e: Pte)
    requires Maps(dirs, tabs, dirs', tabs', d, v, k, e) && d in dirs && k < count && v + count <= ALLPAGES
    requires AbsentFrom(dirs, tabs, d, v, count)
    ensures d in dirs' && Entry(dirs', tabs', d, v + k) == Absent
  {
    assert MapsIn(dirs, tabs, dirs', tabs', d, v, k, e, d);
    assert MapsEntry(dirs, tabs, dirs', tabs', d, v, k, e, d, v + k);
  }

  lemma MapsSame(dirs: Dirs, tabs: Tables, dirs1: Dirs, tabs1: Tables, dirs2: Dirs, tabs2: Tables, d: nat, v: nat,
                 k: nat, e: Pte)
    requires Maps(dirs, tabs, dirs1, tabs1, d, v, k, e) && AllSame(dirs1, tabs1, dirs2, tabs2)
    requires dirs2.Keys == dirs1.Keys
    ensures Maps(dirs, tabs, dirs2, tabs2, d, v, k, e)
  {
    forall d2 | d2 in dirs ensures MapsIn(dirs, tabs, dirs2, tabs2, d, v, k, e, d2) {
      assert MapsIn(dirs, tabs, dirs1, tabs1, d, v, k, e, d2) && SameEntries(dirs1, tabs1, dirs2, tabs2, d2);
      forall vpn | 0 <= vpn < ALLPAGES ensures MapsEntry(dirs, tabs, dirs2, tabs2, d, v, k, e, d2, vpn) {
        assert MapsEntry(dirs, tabs, dirs1, tabs1, d, v, k, e, d2, vpn);
        assert EntrySame(dirs1, tabs1, dirs2, tabs2, d2, vpn);
      }
    }
  }

  ghost predicate AbsentFrom(dirs: Dirs, tabs: Tables, d: nat, v: nat, count: nat)
    requires d in dirs && v + count <= ALLPAGES
  {
    forall vpn :: v <= vpn < v + count ==> Entry(dirs, tabs, d, vpn) == Absent
  }

  lemma ConservedRoles(lo: nat, hi: nat, free: seq<nat>, owner: Owner, owner': Owner)
    requires Conserved(lo, hi, free, owner) && owner'.Keys == owner.Keys
    ensures Conserved(lo, hi, free, owner')
  {
    forall f ensures InRange(f, lo, hi) <==> f in owner' || f in free {
      assert f in owner' <==> f in owner;
    }
  }

  /** No page table, no page. */
  lemma AbsentTable(dirs: Dirs, tabs: Tables, d: nat, v: nat)
    requires d in dirs && v < ALLPAGES && dirs[d][v / NENTRIES] == 0
    ensures forall x :: v <= x < (v / NENTRIES + 1) * NENTRIES && x < ALLPAGES ==> Entry(dirs, tabs, d, x) == Absent
  {
    forall x | v <= x < (v / NENTRIES + 1) * NENTRIES && x < ALLPAGES ensures Entry(dirs, tabs, d, x) == Absent {
      assert x / NENTRIES == v / NENTRIES;
    }
  }

  /** Pages v..to are absent: there is nothing to do for them. */
  lemma AbsentMore(dirs: Dirs, tabs0: Tables, tabs: Tables, owner0: Owner, owner: Owner, d: nat, first: nat, v: nat,
                   to: nat)
    requires Owned(dirs, tabs, owner) && d in dirs && first <= v <= to <= KERNPAGE
    requires Unmaps(dirs, tabs0, tabs, d, first, v) && Unowns(owner0, owner, d, first, v)
    requires forall x :: v <= x < to ==> Entry(dirs, tabs, d, x) == Absent
    ensures Unmaps(dirs, tabs0, tabs, d, first, to) && Unowns(owner0, owner, d, first, to)
    ensures forall x :: v <= x < to ==> Entry(dirs, tabs0, d, x) == Absent
  {
    forall x | v <= x < to ensures Entry(dirs, tabs0, d, x) == Absent {
      UnmapsEntry(dirs, tabs0, tabs, d, first, v, d, x);
    }
    UnmapsAbsent(dirs, tabs0, tabs, d, first, v, to);
    forall f ensures UnownsAt(owner0, owner, d, first, to, f) {
      assert UnownsAt(owner0, owner, d, first, v, f);
      if f in owner && owner[f].User? {
        assert Placed(dirs, tabs, owner, f);
      }
    }
  }

  lemma {:induction false} ScanSkips(dirs: Dirs, tabs: Tables, d: nat, v: nat, to: nat, last: nat, free: seq<nat>)
    requires d in dirs && v <= to <= last <= ALLPAGES && forall x :: v <= x < to ==> Entry(dirs, tabs, d, x) == Absent
    ensures Scan(dirs, tabs, d, v, last, free) == Scan(dirs, tabs, d, to, last, free)
    decreases if v < to then to - v else 0
  {
    if v < to {
      ScanSkips(dirs, tabs, d, v + 1, to, last, free);
    }
  }

  lemma UnownsMore(dirs: Dirs, tabs: Tables, owner0: Owner, owner: Owner, d: nat, first: nat, v: nat, f: nat)
    requires Owned(dirs, tabs, owner) && Unowns(owner0, owner, d, first, v) && first <= v
    requires f in owner && owner[f] == User(d, v)
    ensures Unowns(owner0, owner - {f}, d, first, v + 1)
  {
    var owner', to := owner - {f}, v + 1;
    forall g ensures UnownsAt(owner0, owner', d, first, to, g) {
      assert UnownsAt(owner0, owner, d, first, v, g);
      if g in owner && owner[g] == User(d, v) {
        assert Placed(dirs, tabs, owner, g) && Placed(dirs, tabs, owner, f);
      }
    }
  }

  lemma JunkElsewhere(owner: Owner, pages0: Pages, pages: Pages, f: nat)
    requires PagesKept(owner, pages0, pages)
    ensures PagesKept(owner - {f}, pages0, pages[f := Filled(1)])
  {
    var pages' := pages[f := Filled(1)];
    forall g | g in owner - {f} && owner[g].User? ensures PageKept(pages0, pages', g) {
      assert PageKept(pages0, pages, g);
    }
  }

  // ------------------------------------------------------- where every frame is

  ghost predicate TableUse(dirs: Dirs, f: nat) {
    exists d, i :: d in dirs && 0 <= i < NENTRIES && dirs[d][i] == f
  }

  ghost predicate PageUse(dirs: Dirs, tabs: Tables, f: nat) {
    exists d, vpn ::
      d in dirs && 0 <= vpn < KERNPAGE && Entry(dirs, tabs, d, vpn).Map? && Entry(dirs, tabs, d, vpn).frame == f
  }

  /** A frame is free, a directory, a page table or a user page: at most one of them. */
  lemma OneUse(lo: nat, hi: nat, free: seq<nat>, dirs: Dirs, tabs: Tables, owner: Owner, f: nat)
    requires Owned(dirs, tabs, owner) && Conserved(lo, hi, free, owner) && f != 0
    ensures f in free ==> f !in dirs && !TableUse(dirs, f) && !PageUse(dirs, tabs, f)
    ensures f in dirs ==> !TableUse(dirs, f) && !PageUse(dirs, tabs, f)
    ensures TableUse(dirs, f) ==> !PageUse(dirs, tabs, f)
  {
    if TableUse(dirs, f) {
      var d, i :| d in dirs && 0 <= i < NENTRIES && dirs[d][i] == f;
      TableIsOwned(dirs, tabs, owner, d, i);
    }
    if PageUse(dirs, tabs, f) {
      var d, vpn :|
        d in dirs && 0 <= vpn < KERNPAGE && Entry(dirs, tabs, d, vpn).Map? && Entry(dirs, tabs, d, vpn).frame == f;
      MappedIsOwned(dirs, tabs, owner, d, vpn);
    }
    if f in dirs {
      assert DirOwned(dirs, tabs, owner, f);
    }
  }

  lemma FramesCovered(lo: nat, hi: nat, free: seq<nat>, owner: Owner, all: set<nat>)
    requires Conserved(lo, hi, free, owner) && forall f :: f in all <==> lo <= f < hi
    ensures all == owner.Keys + Members(free) && owner.Keys !! Members(free)
  {
    forall f ensures f in all <==> f in owner.Keys + Members(free) {
      assert InRange(f, lo, hi) <==> f in owner || f in free;
    }
  }

  /** No frame is ever lost: free and used frames add up to all of them. */
  lemma FramesAddUp(lo: nat, hi: nat, free: seq<nat>, owner: Owner)
    requires Conserved(lo, hi, free, owner) && lo <= hi
    ensures |free| + |owner.Keys| == hi - lo
  {
    DistinctSize(free);
    var all := Between(lo, hi);
    FramesCovered(lo, hi, free, owner, all);
    TwoParts(all, owner.Keys, Members(free));
  }

  lemma SameFrames(lo: nat, hi: nat, free: seq<nat>, free': seq<nat>, owner: Owner)
    requires Conserved(lo, hi, free, owner) && Conserved(lo, hi, free', owner) && lo <= hi
    ensures |free| == |free'|
  {
    FramesAddUp(lo, hi, free, owner);
    FramesAddUp(lo, hi, free', owner);
  }

  // ------------------------------------------------------------ 32-bit addresses

  /** PDX and PGADDR of mmu.h. */
  function Pdx(va: nat): nat {
    va / 4194304 % 1024
  }

  function PgAddr(d: nat, t: nat, o: nat): nat {
    (d * 4194304 + t * PGSIZE + o) % UINT
  }

  /** The jump of deallocuvm goes to the first page of the next table and does not wrap around. */
  lemma JumpAddress(a: nat)
    requires a % PGSIZE == 0 && a < KERNBASE
    ensures Pdx(a) == a / PGSIZE / NENTRIES
    ensures a < PgAddr(Pdx(a) + 1, 0, 0) == NextTable(a / PGSIZE) * PGSIZE <= KERNBASE
  {
    assert a / PGSIZE / NENTRIES == a / 4194304 < 512;
  }
}
