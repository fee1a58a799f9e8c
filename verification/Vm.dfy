/** kalloc.c and vm.c as they are written; sizes are in bytes, `vpn` is a page number. */
module Vm {
  import opened Common
  import opened PageTables
  import opened VmSpaces
  import opened VmSteps
  import opened VmFrames

  class Kernel {
    const lo: nat                // frames of physical memory that can be allocated
    const hi: nat
    const dataPage: nat          // physical page where the data of the kernel starts
    var free: seq<nat>           // kmem.freelist
    var dirs: Dirs
    var tabs: Tables
    var pages: Pages
    ghost var owner: Owner

    ghost predicate Valid()
      reads this
    {
      && Owned(dirs, tabs, owner) && Conserved(lo, hi, free, owner)
      && lo <= hi && 256 < dataPage < PHYSPAGES
    }

    /** `freerange` over frames lo..hi: each of them is on the free list once. */
    constructor (lo: nat, hi: nat, dataPage: nat)
      requires 0 < lo <= hi && 256 < dataPage < PHYSPAGES
      ensures Valid() && dirs == map[] && owner == map[]
      ensures this.lo == lo && this.hi == hi && |free| == hi - lo
    {
      this.lo, this.hi, this.dataPage := lo, hi, dataPage;
      free, dirs, tabs, pages, owner := [], map[], map[], map[], map[];
      new;
      var f := lo;
      while f < hi
        invariant lo <= f <= hi && dirs == map[] && owner == map[] && |free| == f - lo
        invariant Conserved(lo, f, free, map[])
      {
        FreeAdded(lo, f, free);
        pages := pages[f := Filled(1)];
        free := [f] + free;
        f := f + 1;
      }
    }

    /** `kalloc`; 0 when there is none. */
    method Kalloc() returns (f: nat)
      requires Valid()
      modifies this`free, this`owner
      ensures Valid()
      ensures f == 0 <==> old(free) == []
      ensures f == 0 ==> free == old(free) && owner == old(owner)
      ensures f != 0 ==>
        f == old(free)[0] && free == old(free)[1..] && f !in old(owner) && owner == old(owner)[f := Other]
    {
      if free == [] {
        return 0;
      }
      f := free[0];
      FreeTaken(lo, hi, free, owner, Other);
      SpareFrame(dirs, tabs, owner, f);
      free := free[1..];
      owner := owner[f := Other];
    }

    /**
     `kfree`: junk goes in, and the frame is the next to be allocated. The panic is unreachable
     for a frame in use.
     */
    method Kfree(f: nat)
      requires f in owner && Conserved(lo, hi, free, owner)
      modifies this`free, this`owner, this`pages
      ensures free == [f] + old(free) && owner == old(owner) - {f} && pages == old(pages)[f := Filled(1)]
      ensures Conserved(lo, hi, free, owner) && lo <= f < hi
    {
      FreeGiven(lo, hi, free, owner, f);
      pages := pages[f := Filled(1)];
      free := [f] + free;
      owner := owner - {f};
    }

    /** `walkpgdir`: whether there is a table for the page, created if asked and possible. */
    method Walkpgdir(d: nat, vpn: nat, alloc: bool) returns (ok: bool)
      requires Valid() && d in dirs && vpn < ALLPAGES
      modifies this`free, this`owner, this`dirs, this`tabs
      ensures Valid() && dirs.Keys == old(dirs).Keys
      ensures ok <==> dirs[d][vpn / NENTRIES] != 0
      ensures !alloc || !ok ==> dirs == old(dirs) && tabs == old(tabs) && owner == old(owner) && free == old(free)
      ensures !ok && alloc ==> free == []
      ensures AllSame(old(dirs), old(tabs), dirs, tabs) && RolesKept(old(owner), owner) && NewOnly(old(owner), owner, d)
      ensures ok ==> dirs[d][vpn / NENTRIES] in tabs
      ensures alloc ==> TookTable(old(dirs)[d], dirs[d], vpn / NENTRIES, |old(free)|, |free|, ok)
    {
      AllSameRefl(dirs, tabs);
      var i := vpn / NENTRIES;
      if dirs[d][i] != 0 {
        TableIsOwned(dirs, tabs, owner, d, i);
        return true;
      }
      if !alloc {
        return false;
      }
      var t := Kalloc();
      if t == 0 {
        return false;
      }
      AddTableOwned(dirs, tabs, owner, d, i, t);
      AddTableSame(dirs, tabs, owner, d, i, t);
      tabs := tabs[t := NoPages()];
      dirs := AddTable(dirs, d, i, t);
      assert Conserved(lo, hi, free, owner[t := TableOf(d, i)]);
      owner := owner[t := TableOf(d, i)];
      return true;
    }

    /** One round of the loop of `mappages`; the panic "remap" is unreachable for an absent page. */
    method MapOne(d: nat, vpn: nat, e: Pte) returns (ok: bool)
      requires Valid() && d in dirs && vpn < ALLPAGES && Entry(dirs, tabs, d, vpn) == Absent && e.Map?
      requires vpn < KERNPAGE ==> e.frame in owner && owner[e.frame] == Other
      modifies this`free, this`owner, this`dirs, this`tabs
      ensures Valid() && dirs.Keys == old(dirs).Keys
      ensures !ok ==>
        free == [] && dirs == old(dirs) && AllSame(old(dirs), old(tabs), dirs, tabs) && owner == old(owner)
      ensures TookTable(old(dirs)[d], dirs[d], vpn / NENTRIES, |old(free)|, |free|, ok)
      ensures ok ==> Maps(old(dirs), old(tabs), dirs, tabs, d, vpn, 1, e)
      ensures ok && vpn < KERNPAGE ==>
        RolesBut(old(owner), owner, e.frame) && e.frame in owner && owner[e.frame] == User(d, vpn)
      ensures ok && vpn >= KERNPAGE ==> RolesKept(old(owner), owner)
      ensures NewOnly(old(owner), owner, d)
    {
      ghost var dirs0, tabs0, owner0 := dirs, tabs, owner;
      ok := Walkpgdir(d, vpn, true);
      if !ok {
        return;
      }
      assert SameEntries(dirs0, tabs0, dirs, tabs, d);
      assert EntrySame(dirs0, tabs0, dirs, tabs, d, vpn);
      if vpn < KERNPAGE {
        assert RoleKept(owner0, owner, e.frame);
      }
      MapsOne(dirs0, tabs0, dirs, tabs, owner, d, vpn, e);
      SetEntryOwned(dirs, tabs, owner, d, vpn, e);
      tabs := SetEntry(dirs, tabs, d, vpn, e);
      ghost var owner1 := Reassigned(owner, d, vpn, Absent, e);
      assert owner1.Keys == owner.Keys;
      ConservedRoles(lo, hi, free, owner, owner1);
      forall f ensures NewAt(owner0, owner1, d, f) {
        assert NewAt(owner0, owner, d, f);
      }
      owner := owner1;
    }

    /**
     `mappages` of `count` pages from v: one user page, or a range of kernel pages. It succeeds
     if and only if there are frames for the page tables that are missing. On failure pages of
     the range may have been mapped.
     */
    method Mappages(d: nat, v: nat, count: nat, e: Pte) returns (ok: bool)
      requires Valid() && d in dirs && 0 < count && v + count <= ALLPAGES && AbsentFrom(dirs, tabs, d, v, count)
      requires e.Map?
      requires v < KERNPAGE ==> count == 1 && e.frame in owner && owner[e.frame] == Other
      modifies this`free, this`owner, this`dirs, this`tabs
      ensures Valid() && dirs.Keys == old(dirs).Keys
      ensures !ok ==> free == [] && exists k :: 0 <= k < count && Maps(old(dirs), old(tabs), dirs, tabs, d, v, k, e)
      ensures ok ==> Maps(old(dirs), old(tabs), dirs, tabs, d, v, count, e)
      ensures v < KERNPAGE && ok ==>
        RolesBut(old(owner), owner, e.frame) && e.frame in owner && owner[e.frame] == User(d, v)
      ensures v < KERNPAGE && !ok ==> owner == old(owner)
      ensures v >= KERNPAGE ==> RolesKept(old(owner), owner)
      ensures NewOnly(old(owner), owner, d)
      ensures ok <==> |old(free)| >= TablesFor(old(dirs)[d], v, count)
      ensures ok ==> Took(old(dirs)[d], dirs[d], v, count, |old(free)|, |free|)
      ensures !ok && count == 1 ==> dirs == old(dirs)
    {
      ghost var dirs0, tabs0 := dirs, tabs;
      MapsNone(dirs, tabs, d, v, e);
      TookNone(dirs[d], v, |free|);
      var k := 0;
      while true
        invariant Valid() && dirs.Keys == old(dirs).Keys && 0 <= k < count
        invariant Maps(dirs0, tabs0, dirs, tabs, d, v, k, e)
        invariant v < KERNPAGE ==> k == 0 && owner == old(owner)
        invariant RolesKept(old(owner), owner) && NewOnly(old(owner), owner, d)
        invariant Took(dirs0[d], dirs[d], v, k, |old(free)|, |free|) && (k == 0 ==> dirs == dirs0)
        decreases count - k
      {
        ghost var dirs1, tabs1, owner1, free1 := dirs, tabs, owner, |free|;
        MapsAbsent(dirs0, tabs0, dirs, tabs, d, v, k, count, e);
        ok := MapOne(d, v + k, e.(frame := e.frame + k));
        TookNext(dirs0[d], dirs1[d], dirs[d], v, k, count, |old(free)|, free1, |free|, ok);
        if !ok {
          MapsSame(dirs0, tabs0, dirs1, tabs1, dirs, tabs, d, v, k, e);
          return;
        }
        MapsMore(dirs0, tabs0, dirs1, tabs1, dirs, tabs, d, v, k, e);
        if k + 1 == count {
          if v >= KERNPAGE {
            RolesKeptTrans(old(owner), owner1, owner);
            NewOnlyTrans(old(owner), owner1, owner, d);
          }
          return true;
        }
        RolesKeptTrans(old(owner), owner1, owner);
        NewOnlyTrans(old(owner), owner1, owner, d);
        k := k + 1;
      }
    }

    /** kfree of a mapped user page and `*pte = 0`. */
    method Unmap(d: nat, vpn: nat)
      requires Valid() && d in dirs && vpn < KERNPAGE && Entry(dirs, tabs, d, vpn).Map?
      modifies this`free, this`owner, this`pages, this`tabs
      ensures Valid()
      ensures var f := Entry(dirs, old(tabs), d, vpn).frame;
        && f in old(owner) && old(owner)[f] == User(d, vpn)
        && free == [f] + old(free) && owner == old(owner) - {f} && pages == old(pages)[f := Filled(1)]
      ensures Unmaps(dirs, old(tabs), tabs, d, vpn, vpn + 1)
    {
      var f := Entry(dirs, tabs, d, vpn).frame;
      MappedIsOwned(dirs, tabs, owner, d, vpn);
      ghost var owner0 := owner;
      Kfree(f);
      TableIsOwned(dirs, tabs, owner0, d, vpn / NENTRIES);
      SetEntryOwned(dirs, tabs, owner0, d, vpn, Absent);
      UnmapsOne(dirs, tabs, owner0, d, vpn);
      tabs := SetEntry(dirs, tabs, d, vpn, Absent);
    }

    /**
     `deallocuvm`: exactly the pages present in [PGROUNDUP(newsz), oldsz) are freed, in the
     order in which a scan of every page would free them, although absent page tables are
     jumped over.
     */
    method Deallocuvm(d: nat, oldsz: nat, newsz: nat) returns (r: nat)
      requires Valid() && d in dirs && oldsz <= KERNBASE && newsz < UINT
      modifies this`free, this`owner, this`pages, this`tabs, this`dirs
      ensures Valid() && dirs == old(dirs)
      ensures r == if newsz >= oldsz then oldsz else newsz
      ensures newsz >= oldsz ==> free == old(free) && owner == old(owner) && pages == old(pages) && tabs == old(tabs)
      ensures newsz < oldsz ==>
        && Unmaps(dirs, old(tabs), tabs, d, PagesOf(newsz), PagesOf(oldsz))
        && Unowns(old(owner), owner, d, PagesOf(newsz), PagesOf(oldsz))
        && PagesKept(owner, old(pages), pages)
        && free == Scan(dirs, old(tabs), d, PagesOf(newsz), PagesOf(oldsz), old(free))
    {
      if newsz >= oldsz {
        return oldsz;
      }
      ghost var tabs0, owner0, pages0, free0 := tabs, owner, pages, free;
      var v := PagesOf(newsz);
      ghost var first, last := v, PagesOf(oldsz);
      assert first <= last <= KERNPAGE;
      UnmapsNone(dirs, tabs, d, v);
      UnownsNone(owner, d, v);
      while v * PGSIZE < oldsz
        invariant dirs == old(dirs) && Freeing(d, first, v, last, tabs0, owner0, pages0, free0)
        decreases KERNPAGE - v
      {
        BelowEnd(v, oldsz);
        v := FreeNext(d, v, first, last, tabs0, owner0, pages0, free0);
      }
      BelowEnd(v, oldsz);
      return newsz;
    }

    /** What `deallocuvm` has done when it has come to page v. */
    ghost predicate Freeing(d: nat, first: nat, v: nat, last: nat, tabs0: Tables, owner0: Owner, pages0: Pages,
                            free0: seq<nat>)
      reads this
    {
      && Valid() && d in dirs && first <= v && last <= KERNPAGE
      && Unmaps(dirs, tabs0, tabs, d, first, Cap(v, last)) && Unowns(owner0, owner, d, first, Cap(v, last))
      && PagesKept(owner, pages0, pages)
      && Scan(dirs, tabs0, d, v, last, free) == Scan(dirs, tabs0, d, first, last, free0)
    }

    /** One round of that loop: the page that comes next. */
    method FreeNext(d: nat, v: nat, ghost first: nat, ghost last: nat, ghost tabs0: Tables, ghost owner0: Owner,
                    ghost pages0: Pages, ghost free0: seq<nat>)
      returns (next: nat)
      requires Freeing(d, first, v, last, tabs0, owner0, pages0, free0) && v < last
      modifies this`free, this`owner, this`pages, this`tabs, this`dirs
      ensures dirs == old(dirs) && v < next && Freeing(d, first, next, last, tabs0, owner0, pages0, free0)
    {
      var ok := Walkpgdir(d, v, false);
      if !ok {
        SkipTable(dirs, tabs0, tabs, owner0, owner, d, first, v, last, free);
        return NextTable(v) - 1 + 1;
      }
      next := v + 1;
      if Entry(dirs, tabs, d, v).Map? {
        UnmapNext(d, first, v, tabs0, owner0, pages0);
      } else {
        AbsentMore(dirs, tabs0, tabs, owner0, owner, d, first, v, next);
      }
    }

    /** One page of the loop of `deallocuvm`. */
    method UnmapNext(d: nat, ghost first: nat, vpn: nat, ghost tabs0: Tables, ghost owner0: Owner, ghost pages0: Pages)
      requires Valid() && d in dirs && first <= vpn < KERNPAGE && Entry(dirs, tabs, d, vpn).Map?
      requires Unmaps(dirs, tabs0, tabs, d, first, vpn) && Unowns(owner0, owner, d, first, vpn)
      requires PagesKept(owner, pages0, pages)
      modifies this`free, this`owner, this`pages, this`tabs
      ensures Valid()
      ensures Unmaps(dirs, tabs0, tabs, d, first, vpn + 1) && Unowns(owner0, owner, d, first, vpn + 1)
      ensures PagesKept(owner, pages0, pages)
      ensures Entry(dirs, tabs0, d, vpn).Map? && free == [Entry(dirs, tabs0, d, vpn).frame] + old(free)
    {
      ghost var tabs1, owner1, pages1 := tabs, owner, pages;
      UnmapsEntry(dirs, tabs0, tabs, d, first, vpn, d, vpn);
      ghost var f := Entry(dirs, tabs, d, vpn).frame;
      Unmap(d, vpn);
      UnmapsMore(dirs, tabs0, tabs1, tabs, d, first, vpn, vpn + 1);
      UnownsMore(dirs, tabs1, owner0, owner1, d, first, vpn, f);
      JunkElsewhere(owner1, pages0, pages1, f);
    }

    /** The loop of `freevm` over the page directory. */
    method FreeTables(d: nat)
      requires Valid() && d in dirs && NoUserPages(dirs, tabs, d)
      modifies this`free, this`owner, this`pages, this`tabs
      ensures Conserved(lo, hi, free, owner) && Owned(dirs[d := NoTables()], tabs, owner)
      ensures OthersSame(dirs, old(tabs), dirs, tabs, d)
      ensures DropsTables(old(owner), owner, d, NENTRIES)
      ensures PagesKept(owner, old(pages), pages)
    {
      ghost var g, tabs0, owner0, pages0 := dirs, tabs, owner, pages;
      for i := 0 to NENTRIES
        invariant Conserved(lo, hi, free, owner) && Owned(g, tabs, owner) && NoUserPages0(g, tabs, d)
        invariant Cleared(dirs, g, d, i) && OthersSame(dirs, tabs0, g, tabs, d)
        invariant DropsTables(owner0, owner, d, i)
        invariant PagesKept(owner, pages0, pages)
      {
        var t := dirs[d][i];
        if t != 0 {
          DropTable(g, tabs, owner, d, i);
          DropTableOthers(dirs, tabs0, g, tabs, owner, d, i);
          DropTableRoles(g, tabs, owner0, owner, d, i);
          JunkElsewhere(owner, pages0, pages, t);
          Kfree(t);
          tabs := tabs - {t};
          g := AddTable(g, d, i, 0);
        } else {
          NoTableRoles(g, tabs, owner0, owner, d, i);
        }
      }
      AllCleared(dirs, tabs0, g, tabs, d);
    }

    /**
     `freevm`: every frame of the directory goes back, and nothing else. The caller that skips
     the user part must have freed it before, as exit does.
     */
    method Freevm(d: nat, dodeallocuvm: bool)
      requires Valid() && d in dirs && (!dodeallocuvm ==> NoUserPages(dirs, tabs, d))
      modifies this`free, this`owner, this`pages, this`tabs, this`dirs
      ensures Valid() && dirs == old(dirs) - {d}
      ensures OthersSame(old(dirs), old(tabs), dirs, tabs, d)
      ensures Drops(old(owner), owner, d)
      ensures PagesKept(owner, old(pages), pages)
    {
      ghost var tabs0, owner0, pages0 := tabs, owner, pages;
      if dodeallocuvm {
        var r := Deallocuvm(d, KERNBASE, 0);
        AllUnmapped(dirs, tabs0, tabs, d);
      } else {
        NothingUnmapped(dirs, tabs, owner, d);
      }
      ghost var tabs1, owner1, pages1 := tabs, owner, pages;
      FreeTables(d);
      ghost var g, owner2, pages2 := dirs[d := NoTables()], owner, pages;
      DropDirectory(g, tabs, owner, d);
      Kfree(d);
      dirs := dirs - {d};
      assert g - {d} == dirs;
      DropsAll(old(dirs), tabs0, owner0, owner1, owner2, d);
      KeptThrice(owner1, owner2, pages0, pages1, pages2, d);
      OthersSameDrop(old(dirs), tabs0, tabs1, tabs, d);
    }

    /** The loop of `setupkvm` over kmap. */
    method MapKernel(d: nat, ghost dirs0: Dirs, ghost tabs0: Tables, ghost owner0: Owner) returns (ok: bool)
      requires Valid() && d in dirs && d !in dirs0 && KernelPart(dirs, tabs, d, dataPage, 0)
      requires AllSame(dirs0, tabs0, dirs, tabs) && RolesKept(owner0, owner) && NewFor(owner0, owner, d)
      requires KernelSlots(dirs[d], dataPage, 0)
      modifies this`free, this`owner, this`dirs, this`tabs
      ensures Valid() && dirs.Keys == old(dirs).Keys
      ensures AllSame(dirs0, tabs0, dirs, tabs) && RolesKept(owner0, owner) && NewFor(owner0, owner, d)
      ensures NoUserPages(dirs, tabs, d)
      ensures ok ==> KernelPart(dirs, tabs, d, dataPage, 4)
      ensures !ok ==> free == []
      ensures ok <==> |old(free)| >= SETUPFRAMES - 1
      ensures ok ==> |free| == |old(free)| - (SETUPFRAMES - 1) && KernelSlots(dirs[d], dataPage, 4)
    {
      var k := 0;
      while k < 4
        invariant Valid() && dirs.Keys == old(dirs).Keys && 0 <= k <= 4
        invariant AllSame(dirs0, tabs0, dirs, tabs) && RolesKept(owner0, owner) && NewFor(owner0, owner, d)
        invariant KernelPart(dirs, tabs, d, dataPage, k)
        invariant KernelSlots(dirs[d], dataPage, k) && |free| == |old(free)| - KernelTables(dataPage, k)
      {
        ghost var dirs1, tabs1, owner1 := dirs, tabs, owner;
        var (v, count, e) := Region(dataPage, k);
        RegionAbsent(dirs, tabs, d, dataPage, k);
        KernelNext(dirs[d], dataPage, k);
        KernelTablesGrow(dataPage, k);
        ok := Mappages(d, v, count, e);
        RolesKeptTrans(owner0, owner1, owner);
        NewForMore(owner0, owner1, owner, d);
        if !ok {
          ghost var done :| 0 <= done < count && Maps(dirs1, tabs1, dirs, tabs, d, v, done, e);
          SameAfterMaps(dirs0, tabs0, dirs1, tabs1, dirs, tabs, d, v, done, e);
          KernelOnly(dirs1, tabs1, dirs, tabs, d, dataPage, k, v, done, e);
          return;
        }
        SameAfterMaps(dirs0, tabs0, dirs1, tabs1, dirs, tabs, d, v, count, e);
        RegionMapped(dirs1, tabs1, dirs, tabs, d, dataPage, k);
        KernelFilled(dirs1[d], dirs[d], dataPage, k);
        k := k + 1;
      }
      forall vpn | 0 <= vpn < KERNPAGE ensures Entry(dirs, tabs, d, vpn) == Absent {
        assert KernelAt(dirs, tabs, d, dataPage, k, vpn);
      }
      return true;
    }

    /** kalloc and memset of `setupkvm`: an empty directory. */
    method EmptyDirectory() returns (d: nat)
      requires Valid()
      modifies this`free, this`owner, this`dirs
      ensures Valid() && AllSame(old(dirs), tabs, dirs, tabs)
      ensures d == 0 <==> old(free) == []
      ensures d == 0 ==> unchanged(this)
      ensures d != 0 ==>
        && |free| == |old(free)| - 1 && d !in old(owner) && d !in old(dirs) && dirs == old(dirs)[d := NoTables()]
        && KernelPart(dirs, tabs, d, dataPage, 0) && RolesKept(old(owner), owner) && NewFor(old(owner), owner, d)
    {
      ghost var owner0 := owner;
      AllSameRefl(dirs, tabs);
      d := Kalloc();
      if d == 0 {
        return;
      }
      UnusedDirectory(dirs, tabs, owner0, d);
      NewDirectory(dirs, tabs, owner, d);
      SameAfterNew(dirs, tabs, d);
      KernelPartNew(dirs, tabs, d, dataPage);
      dirs := dirs[d := NoTables()];
      ConservedRoles(lo, hi, free, owner, owner[d := Directory]);
      owner := owner[d := Directory];
      NewForDirectory(owner0, d);
    }

    /**
     `setupkvm`: a directory with the kernel part if there are 65 frames for it, otherwise 0 and
     every frame back where it was.
     */
    method Setupkvm() returns (d: nat)
      requires Valid()
      modifies this`free, this`owner, this`pages, this`tabs, this`dirs
      ensures Valid() && AllSame(old(dirs), old(tabs), dirs, tabs) && PagesKept(old(owner), old(pages), pages)
      ensures d != 0 <==> |old(free)| >= SETUPFRAMES
      ensures |free| == |old(free)| - if d != 0 then SETUPFRAMES else 0
      ensures d == 0 ==> dirs.Keys == old(dirs).Keys && owner == old(owner)
      ensures d != 0 ==> d in dirs && KernelSlots(dirs[d], dataPage, 4)
      ensures d != 0 ==>
        && d !in old(owner) && d !in old(dirs) && dirs.Keys == old(dirs).Keys + {d}
        && KernelPart(dirs, tabs, d, dataPage, 4) && KernelMap(dirs, tabs, d, dataPage)
        && RolesKept(old(owner), owner) && NewFor(old(owner), owner, d)
    {
      ghost var dirs0, tabs0, owner0, free0 := dirs, tabs, owner, free;
      d := EmptyDirectory();
      if d == 0 {
        return;
      }
      var ok := MapKernel(d, dirs0, tabs0, owner0);
      if !ok {
        UndoSetup(d, dirs0, tabs0, owner0);
        SameFrames(lo, hi, free0, free, owner);
        return 0;
      }
      KernelIsMapped(dirs, tabs, d, dataPage);
    }

    /** freevm(pgdir, 0) after a failure in `setupkvm`. */
    method UndoSetup(d: nat, ghost dirs0: Dirs, ghost tabs0: Tables, ghost owner0: Owner)
      requires Valid() && d in dirs && NoUserPages(dirs, tabs, d)
      requires Owned(dirs0, tabs0, owner0) && d !in dirs0 && d !in owner0 && dirs.Keys == dirs0.Keys + {d}
      requires AllSame(dirs0, tabs0, dirs, tabs) && RolesKept(owner0, owner) && NewFor(owner0, owner, d)
      modifies this`free, this`owner, this`pages, this`tabs, this`dirs
      ensures Valid() && AllSame(dirs0, tabs0, dirs, tabs) && owner == owner0 && dirs.Keys == dirs0.Keys
      ensures PagesKept(owner0, old(pages), pages)
    {
      ghost var dirs1, tabs1, owner1 := dirs, tabs, owner;
      Freevm(d, false);
      SameAfterDrop(dirs0, tabs0, dirs1, tabs1, dirs, tabs, d);
      RolledBack(dirs0, tabs0, owner0, owner1, owner, d);
    }

    /**
     kalloc, memset to 0 and mappages of one user page, as allocuvm and the page fault do: f is
     the frame (0 when there is none), which stays in hand when there is no frame for a table.
     It takes one frame, and a second one if the page table is missing.
     */
    method MapZeroPage(d: nat, vpn: nat) returns (f: nat, ok: bool)
      requires Valid() && d in dirs && vpn < KERNPAGE && Entry(dirs, tabs, d, vpn) == Absent
      modifies this`free, this`owner, this`pages, this`dirs, this`tabs
      ensures Valid() && dirs.Keys == old(dirs).Keys && Invisible(old(dirs), old(tabs), old(pages), dirs, tabs, pages)
      ensures f == 0 ==> !ok && dirs == old(dirs) && tabs == old(tabs) && owner == old(owner) && pages == old(pages)
      ensures f != 0 ==> f !in old(owner) && pages == old(pages)[f := Filled(0)]
      ensures f != 0 && !ok ==> owner == old(owner)[f := Other] && AllSame(old(dirs), old(tabs), dirs, tabs)
      ensures ok ==> Maps(old(dirs), old(tabs), dirs, tabs, d, vpn, 1, Map(f, true, true))
      ensures ok ==> RolesBut(old(owner)[f := Other], owner, f) && f in owner && owner[f] == User(d, vpn)
      ensures ok ==> NewOnly(old(owner)[f := Other], owner, d)
      ensures !ok ==> free == [] && dirs == old(dirs)
      ensures f == 0 <==> old(free) == []
      ensures ok <==> |old(free)| >= FramesToTouch(old(dirs)[d], vpn)
      ensures ok ==> TookPage(old(dirs)[d], dirs[d], vpn, |old(free)|, |free|)
    {
      ghost var dirs0, tabs0, owner0, pages0 := dirs, tabs, owner, pages;
      SingleTable(dirs[d], vpn);
      f := Kalloc();
      if f == 0 {
        AllSameRefl(dirs, tabs);
        InvisibleFrame(dirs, tabs, owner, pages, dirs, tabs, pages);
        return 0, false;
      }
      pages := pages[f := Filled(0)];
      ok := Mappages(d, vpn, 1, Map(f, true, true));
      if ok {
        ZeroMapped(dirs0, tabs0, owner0, pages0, dirs, tabs, d, vpn, f);
      } else {
        NoneMapped(dirs0, tabs0, dirs, tabs, d, vpn, Map(f, true, true));
        InvisibleFrame(dirs0, tabs0, owner0, pages0, dirs, tabs, pages);
      }
    }

    /** The exits of `allocuvm` for lack of memory: deallocuvm and, if there is a frame in hand, kfree. */
    method UndoGrow(d: nat, oldsz: nat, newsz: nat, f: nat, v: nat, ghost dirs0: Dirs, ghost tabs0: Tables,
                    ghost owner0: Owner, ghost pages0: Pages, ghost owner1: Owner)
      requires Valid() && d in dirs && oldsz <= newsz < KERNBASE && PagesOf(oldsz) <= v <= PagesOf(newsz)
      requires Owned(dirs0, tabs0, owner0) && d in dirs0
      requires AbsentFrom(dirs0, tabs0, d, PagesOf(oldsz), PagesOf(newsz) - PagesOf(oldsz))
      requires Grew(dirs0, tabs0, dirs, tabs, d, PagesOf(oldsz), v) && GrewRoles(owner0, owner1, d, PagesOf(oldsz), v)
      requires PagesKept(owner0, pages0, pages)
      requires if f == 0 then owner == owner1 else f !in owner1 && owner == owner1[f := Other]
      modifies this`free, this`owner, this`pages, this`dirs, this`tabs
      ensures Valid() && dirs.Keys == old(dirs).Keys && AllSame(dirs0, tabs0, dirs, tabs)
      ensures RolesKept(owner0, owner) && NewOnly(owner0, owner, d) && PagesKept(owner0, pages0, pages)
    {
      ghost var dirs1, tabs1, owner', pages1 := dirs, tabs, owner, pages;
      var r := Deallocuvm(d, newsz, oldsz);
      if oldsz == newsz {
        UnmapsNone(dirs, tabs, d, v);
        UnownsNone(owner, d, v);
      }
      GrewUndone(dirs0, tabs0, dirs1, tabs1, tabs, d, PagesOf(oldsz), v, PagesOf(newsz));
      UndoneRoles(dirs0, tabs0, owner0, owner1, owner', owner, d, PagesOf(oldsz), v, PagesOf(newsz), f);
      UndonePages(owner0, owner, pages0, pages1, pages, f);
      if f != 0 {
        SpareFreed(dirs, tabs, owner, f);
        Kfree(f);
      }
    }

    /** What `allocuvm` has done when it has come from page `first` to page v. */
    ghost predicate Growing(d: nat, first: nat, v: nat, dirs0: Dirs, tabs0: Tables, owner0: Owner, pages0: Pages,
                            free0: nat)
      reads this
    {
      && d in dirs && d in dirs0 && first <= v <= KERNPAGE && dirs.Keys == dirs0.Keys
      && Grew(dirs0, tabs0, dirs, tabs, d, first, v) && GrewRoles(owner0, owner, d, first, v)
      && PagesKept(owner0, pages0, pages) && Invisible(dirs0, tabs0, pages0, dirs, tabs, pages)
      && TookPages(dirs0[d], dirs[d], first, v, free0, |free|)
    }

    /** One round of the loop of `allocuvm`. */
    method GrowNext(d: nat, oldsz: nat, newsz: nat, v: nat, ghost dirs0: Dirs, ghost tabs0: Tables, ghost owner0: Owner,
                    ghost pages0: Pages, ghost free0: nat)
      returns (ok: bool)
      requires Valid() && oldsz <= newsz < KERNBASE && v < PagesOf(newsz) && Owned(dirs0, tabs0, owner0)
      requires Growing(d, PagesOf(oldsz), v, dirs0, tabs0, owner0, pages0, free0)
      requires AbsentFrom(dirs0, tabs0, d, PagesOf(oldsz), PagesOf(newsz) - PagesOf(oldsz))
      modifies this`free, this`owner, this`pages, this`dirs, this`tabs
      ensures Valid() && dirs.Keys == old(dirs).Keys
      ensures ok ==> Growing(d, PagesOf(oldsz), v + 1, dirs0, tabs0, owner0, pages0, free0)
      ensures !ok ==> free0 < FramesToGrow(dirs0[d], oldsz, newsz) && AllSame(dirs0, tabs0, dirs, tabs)
      ensures !ok ==> RolesKept(owner0, owner) && NewOnly(owner0, owner, d) && PagesKept(owner0, pages0, pages)
    {
      ghost var first, last := PagesOf(oldsz), PagesOf(newsz);
      GrewAbsent(dirs0, tabs0, dirs, tabs, d, first, v, last);
      ghost var dirs1, tabs1, owner1, pages1, free1 := dirs, tabs, owner, pages, |free|;
      var f;
      f, ok := MapZeroPage(d, v);
      TookPagesNext(dirs0[d], dirs1[d], dirs[d], first, v, last, free0, free1, |free|, ok);
      if f != 0 {
        FreshPage(owner0, owner1, pages0, pages1, d, first, v, f, Filled(0));
      }
      if !ok {
        if f == 0 {
          AllSameRefl(dirs, tabs);
        }
        GrewSame(dirs0, tabs0, dirs1, tabs1, dirs, tabs, d, first, v);
        UndoGrow(d, oldsz, newsz, f, v, dirs0, tabs0, owner0, pages0, owner1);
        return;
      }
      GrewMore(dirs0, tabs0, dirs1, tabs1, dirs, tabs, d, first, v, Map(f, true, true));
      GrewRolesMore(owner0, owner1, owner, d, first, v, f);
      InvisibleTrans(dirs0, tabs0, pages0, dirs1, tabs1, pages1, dirs, tabs, pages);
    }

    /**
     `allocuvm`: the new pages are present and read as zeroes, which is what lazily allocated
     pages read as, so no process sees a difference. It succeeds if and only if there are frames
     for the pages and for the page tables that are missing; otherwise every page is given back.
     */
    method Allocuvm(d: nat, oldsz: nat, newsz: nat) returns (r: nat)
      requires Valid() && d in dirs && oldsz < KERNBASE
      requires oldsz <= newsz < KERNBASE ==> AbsentFrom(dirs, tabs, d, PagesOf(oldsz), PagesOf(newsz) - PagesOf(oldsz))
      modifies this`free, this`owner, this`pages, this`dirs, this`tabs
      ensures Valid() && dirs.Keys == old(dirs).Keys && Invisible(old(dirs), old(tabs), old(pages), dirs, tabs, pages)
      ensures newsz >= KERNBASE ==> r == 0 && unchanged(this)
      ensures newsz < oldsz ==> r == oldsz && unchanged(this)
      ensures oldsz <= newsz < KERNBASE ==>
        r == if |old(free)| >= FramesToGrow(old(dirs)[d], oldsz, newsz) then newsz else 0
      ensures oldsz <= newsz < KERNBASE && r == newsz ==>
        && Grew(old(dirs), old(tabs), dirs, tabs, d, PagesOf(oldsz), PagesOf(newsz))
        && GrewRoles(old(owner), owner, d, PagesOf(oldsz), PagesOf(newsz))
      ensures oldsz <= newsz < KERNBASE && r != newsz ==>
        AllSame(old(dirs), old(tabs), dirs, tabs) && RolesKept(old(owner), owner) && NewOnly(old(owner), owner, d)
    {
      ghost var dirs0, tabs0, owner0, pages0 := dirs, tabs, owner, pages;
      AllSameRefl(dirs, tabs);
      InvisibleFrame(dirs, tabs, owner, pages, dirs, tabs, pages);
      if newsz >= KERNBASE {
        return 0;
      }
      if newsz < oldsz {
        return oldsz;
      }
      var v := PagesOf(oldsz);
      ghost var last := PagesOf(newsz);
      GrewNone(dirs, tabs, d, v);
      GrewRolesNone(owner, d, v);
      TookNone(dirs[d], v, |free|);
      while v * PGSIZE < newsz
        invariant Valid() && v <= last && Growing(d, PagesOf(oldsz), v, dirs0, tabs0, owner0, pages0, |old(free)|)
      {
        BelowEnd(v, newsz);
        var ok := GrowNext(d, oldsz, newsz, v, dirs0, tabs0, owner0, pages0, |old(free)|);
        if !ok {
          InvisibleFrame(dirs0, tabs0, owner0, pages0, dirs, tabs, pages);
          return 0;
        }
        v := v + 1;
      }
      BelowEnd(v, newsz);
      return newsz;
    }

    /** mappages of one user page, and kfree of the frame if that fails. */
    method MapOrFree(c: nat, v: nat, e: Pte) returns (ok: bool)
      requires Valid() && c in dirs && v < KERNPAGE && Entry(dirs, tabs, c, v) == Absent
      requires e.Map? && e.frame in owner && owner[e.frame] == Other
      modifies this`free, this`owner, this`pages, this`dirs, this`tabs
      ensures Valid() && dirs.Keys == old(dirs).Keys
      ensures ok <==> |old(free)| >= Lacks(old(dirs)[c], v / NENTRIES)
      ensures ok ==> Took(old(dirs)[c], dirs[c], v, 1, |old(free)|, |free|) && pages == old(pages)
      ensures Maps(old(dirs), old(tabs), dirs, tabs, c, v, if ok then 1 else 0, e)
      ensures ok ==>
        && RolesBut(old(owner), owner, e.frame) && e.frame in owner && owner[e.frame] == User(c, v)
        && NewOnly(old(owner), owner, c)
      ensures !ok ==> owner == old(owner) - {e.frame} && pages == old(pages)[e.frame := Filled(1)]
    {
      SingleTable(dirs[c], v);
      ok := Mappages(c, v, 1, e);
      if !ok {
        SpareFreed(dirs, tabs, owner, e.frame);
        Kfree(e.frame);
      }
    }

    /** One present page of the loop of `copyuvm`; when it fails, the frame has been given back. */
    method CopyPage(d: nat, c: nat, v: nat, e: Pte, ghost dirs0: Dirs, ghost tabs0: Tables, ghost owner0: Owner,
                    ghost pages0: Pages)
      returns (ok: bool)
      requires Valid() && c in dirs && c !in dirs0 && d in dirs0 && v < KERNPAGE && Entry(dirs0, tabs0, d, v) == e
      requires e.Map?
      requires Owned(dirs0, tabs0, owner0) && AllSame(dirs0, tabs0, dirs, tabs) && PagesKept(owner0, pages0, pages)
      requires RolesKept(owner0, owner) && NewFor(owner0, owner, c)
      requires Copied(dirs0, tabs0, pages0, dirs, tabs, pages, d, c, v)
      requires CopySlots(dirs0, tabs0, d, v, dirs[c])
      modifies this`free, this`owner, this`pages, this`dirs, this`tabs
      ensures Valid() && dirs.Keys == old(dirs).Keys
      ensures ok <==> |old(free)| >= FramesForPage(dirs0, tabs0, d, v)
      ensures ok ==>
        |free| == |old(free)| - FramesForPage(dirs0, tabs0, d, v) && CopySlots(dirs0, tabs0, d, v + 1, dirs[c])
      ensures AllSame(dirs0, tabs0, dirs, tabs) && PagesKept(owner0, pages0, pages)
      ensures RolesKept(owner0, owner) && NewFor(owner0, owner, c)
      ensures ok ==> Copied(dirs0, tabs0, pages0, dirs, tabs, pages, d, c, v + 1)
    {
      ghost var dirs1, tabs1, owner1, pages1 := dirs, tabs, owner, pages;
      MappedIsOwned(dirs0, tabs0, owner0, d, v);
      assert PageKept(pages0, pages, e.frame);
      assert CopiedAt(dirs0, tabs0, pages0, dirs, tabs, pages, d, c, v, v);
      CopyCost(dirs0, tabs0, d, v, dirs[c]);
      var f := CopyFrame(e.frame, owner0, pages0);
      if f == 0 {
        return false;
      }
      ok := MapOrFree(c, v, e.(frame := f));
      SingleTable(dirs1[c], v);
      if ok {
        PageCopied(dirs0, tabs0, owner0, pages0, dirs1, tabs1, owner1, pages1, dirs, tabs, owner, pages, d, c, v, e, f);
        CopySlotsNext(dirs0, tabs0, d, v, dirs1[c], dirs[c]);
      } else {
        SameAfterMaps(dirs0, tabs0, dirs1, tabs1, dirs, tabs, c, v, 0, e.(frame := f));
        AddedAndRemoved(owner1, f, Other);
      }
    }

    /** kalloc and memmove of a page; 0 when there is no frame. */
    method CopyFrame(src: nat, ghost owner0: Owner, ghost pages0: Pages) returns (f: nat)
      requires Valid() && RolesKept(owner0, owner) && PagesKept(owner0, pages0, pages)
      modifies this`free, this`owner, this`pages
      ensures Valid() && (f == 0 <==> old(free) == [])
      ensures f == 0 ==> free == old(free) && owner == old(owner) && pages == old(pages)
      ensures f != 0 ==>
        && |free| == |old(free)| - 1 && f !in old(owner) && owner == old(owner)[f := Other]
        && pages == old(pages)[f := Contents(old(pages), src)] && PagesKept(owner0, pages0, pages)
        && PagesKept(owner0, pages0, pages[f := Filled(1)])
    {
      f := Kalloc();
      if f == 0 {
        return;
      }
      FilledUnused(owner0, old(owner), pages0, pages, f, Contents(pages, src));
      pages := pages[f := Contents(pages, src)];
      FilledUnused(owner0, old(owner), pages0, pages, f, Filled(1));
    }

    /** freevm(d, 1) after a failure in `copyuvm`. */
    method UndoCopy(c: nat, ghost dirs0: Dirs, ghost tabs0: Tables, ghost owner0: Owner, ghost pages0: Pages)
      requires Valid() && c in dirs && c !in dirs0 && c !in owner0 && dirs.Keys == dirs0.Keys + {c}
      requires Owned(dirs0, tabs0, owner0) && AllSame(dirs0, tabs0, dirs, tabs) && PagesKept(owner0, pages0, pages)
      requires RolesKept(owner0, owner) && NewFor(owner0, owner, c)
      modifies this`free, this`owner, this`pages, this`dirs, this`tabs
      ensures Valid() && AllSame(dirs0, tabs0, dirs, tabs) && PagesKept(owner0, pages0, pages)
      ensures owner == owner0 && dirs.Keys == dirs0.Keys
    {
      ghost var dirs1, tabs1, owner1, pages1 := dirs, tabs, owner, pages;
      Freevm(c, true);
      SameAfterDrop(dirs0, tabs0, dirs1, tabs1, dirs, tabs, c);
      RolledBack(dirs0, tabs0, owner0, owner1, owner, c);
      KeptTwice(owner0, owner, pages0, pages1, pages);
    }

    /**
     `copyuvm`: a new address space whose pages below PGROUNDUP(sz) have the contents and
     permissions of the old one, present or still to be allocated alike, if and only if there
     are frames for the kernel part, the present pages and their page tables; otherwise 0, with
     exactly the frames in use that were in use. No existing process sees a difference.
     */
    method Copyuvm(d: nat, sz: nat) returns (c: nat)
      requires Valid() && d in dirs && sz <= KERNBASE
      modifies this`free, this`owner, this`pages, this`dirs, this`tabs
      ensures Valid() && Invisible(old(dirs), old(tabs), old(pages), dirs, tabs, pages)
      ensures AllSame(old(dirs), old(tabs), dirs, tabs)
      ensures c != 0 <==> |old(free)| >= SETUPFRAMES + FramesToCopy(old(dirs), old(tabs), d, PagesOf(sz))
      ensures c != 0 ==> |free| == |old(free)| - SETUPFRAMES - FramesToCopy(old(dirs), old(tabs), d, PagesOf(sz))
      ensures c == 0 ==> dirs.Keys == old(dirs).Keys && owner == old(owner)
      ensures c != 0 ==>
        && c !in old(dirs) && dirs.Keys == old(dirs).Keys + {c}
        && Copied(old(dirs), old(tabs), old(pages), dirs, tabs, pages, d, c, PagesOf(sz))
        && RolesKept(old(owner), owner) && NewFor(old(owner), owner, c)
    {
      ghost var dirs0, tabs0, owner0, pages0 := dirs, tabs, owner, pages;
      c := Setupkvm();
      if c == 0 {
        InvisibleFrame(dirs0, tabs0, owner0, pages0, dirs, tabs, pages);
        return;
      }
      CopiedNone(dirs0, tabs0, pages0, dirs, tabs, pages, d, c, dataPage);
      TookCopyNone(dirs0, tabs0, d, dataPage, dirs[c], |free|);
      var ok := CopyPages(d, c, sz, dirs0, tabs0, owner0, pages0, |free|);
      if !ok {
        UndoCopy(c, dirs0, tabs0, owner0, pages0);
      }
      InvisibleFrame(dirs0, tabs0, owner0, pages0, dirs, tabs, pages);
      if !ok {
        return 0;
      }
    }

    /** The loop of `copyuvm`. */
    method CopyPages(d: nat, c: nat, sz: nat, ghost dirs0: Dirs, ghost tabs0: Tables, ghost owner0: Owner,
                     ghost pages0: Pages, ghost free0: nat)
      returns (ok: bool)
      requires Copying(d, c, 0, dirs0, tabs0, owner0, pages0, free0) && Owned(dirs0, tabs0, owner0) && sz <= KERNBASE
      modifies this`free, this`owner, this`pages, this`dirs, this`tabs
      ensures Valid() && c in dirs && dirs.Keys == old(dirs).Keys
      ensures AllSame(dirs0, tabs0, dirs, tabs) && PagesKept(owner0, pages0, pages)
      ensures RolesKept(owner0, owner) && NewFor(owner0, owner, c)
      ensures PagesOf(sz) <= KERNPAGE
      ensures ok ==> Copying(d, c, PagesOf(sz), dirs0, tabs0, owner0, pages0, free0)
      ensures !ok ==> free0 < FramesToCopy(dirs0, tabs0, d, PagesOf(sz))
    {
      var v := 0;
      while v * PGSIZE < sz
        invariant v <= PagesOf(sz) && dirs.Keys == old(dirs).Keys
        invariant Copying(d, c, v, dirs0, tabs0, owner0, pages0, free0)
      {
        BelowEnd(v, sz);
        ok := CopyNext(d, c, v, PagesOf(sz), dirs0, tabs0, owner0, pages0, free0);
        if !ok {
          return;
        }
        v := v + 1;
      }
      BelowEnd(v, sz);
      return true;
    }

    /** What `copyuvm` has done when it has come to page v. */
    ghost predicate Copying(d: nat, c: nat, v: nat, dirs0: Dirs, tabs0: Tables, owner0: Owner, pages0: Pages,
                            free0: int)
      reads this
    {
      && Valid() && d in dirs0 && c in dirs && c !in dirs0 && dirs.Keys == dirs0.Keys + {c} && v <= KERNPAGE
      && AllSame(dirs0, tabs0, dirs, tabs) && PagesKept(owner0, pages0, pages)
      && RolesKept(owner0, owner) && NewFor(owner0, owner, c)
      && Copied(dirs0, tabs0, pages0, dirs, tabs, pages, d, c, v)
      && TookCopy(dirs0, tabs0, d, v, dirs[c], free0, |free|)
    }

    /** One round of the loop of `copyuvm`. */
    method CopyNext(d: nat, c: nat, v: nat, ghost last: nat, ghost dirs0: Dirs, ghost tabs0: Tables,
                    ghost owner0: Owner, ghost pages0: Pages, ghost free0: int)
      returns (ok: bool)
      requires Copying(d, c, v, dirs0, tabs0, owner0, pages0, free0) && v < last <= KERNPAGE
      requires Owned(dirs0, tabs0, owner0)
      modifies this`free, this`owner, this`pages, this`dirs, this`tabs
      ensures Valid() && c in dirs && dirs.Keys == old(dirs).Keys
      ensures AllSame(dirs0, tabs0, dirs, tabs) && PagesKept(owner0, pages0, pages)
      ensures RolesKept(owner0, owner) && NewFor(owner0, owner, c)
      ensures ok ==> Copying(d, c, v + 1, dirs0, tabs0, owner0, pages0, free0)
      ensures !ok ==> free0 < FramesToCopy(dirs0, tabs0, d, last)
    {
      ghost var dir1, free1 := dirs[c], |free|;
      ok := CopyOne(d, c, v, dirs0, tabs0, owner0, pages0);
      TookCopyNext(dirs0, tabs0, d, v, last, dir1, dirs[c], free0, free1, |free|, ok);
    }

    /** Page v, if it is present. */
    method CopyOne(d: nat, c: nat, v: nat, ghost dirs0: Dirs, ghost tabs0: Tables, ghost owner0: Owner,
                   ghost pages0: Pages)
      returns (ok: bool)
      requires Valid() && d in dirs && c in dirs && c !in dirs0 && d in dirs0 && v < KERNPAGE
      requires Owned(dirs0, tabs0, owner0) && AllSame(dirs0, tabs0, dirs, tabs) && PagesKept(owner0, pages0, pages)
      requires RolesKept(owner0, owner) && NewFor(owner0, owner, c)
      requires Copied(dirs0, tabs0, pages0, dirs, tabs, pages, d, c, v)
      requires CopySlots(dirs0, tabs0, d, v, dirs[c])
      modifies this`free, this`owner, this`pages, this`dirs, this`tabs
      ensures Valid() && dirs.Keys == old(dirs).Keys
      ensures ok <==> |old(free)| >= FramesForPage(dirs0, tabs0, d, v)
      ensures ok ==>
        |free| == |old(free)| - FramesForPage(dirs0, tabs0, d, v) && CopySlots(dirs0, tabs0, d, v + 1, dirs[c])
      ensures AllSame(dirs0, tabs0, dirs, tabs) && PagesKept(owner0, pages0, pages)
      ensures RolesKept(owner0, owner) && NewFor(owner0, owner, c)
      ensures ok ==> Copied(dirs0, tabs0, pages0, dirs, tabs, pages, d, c, v + 1)
    {
      assert SameEntries(dirs0, tabs0, dirs, tabs, d);
      assert EntrySame(dirs0, tabs0, dirs, tabs, d, v);
      ok := Walkpgdir(d, v, false);
      if !ok || Entry(dirs, tabs, d, v) == Absent {
        CopiedSkip(dirs0, tabs0, pages0, dirs, tabs, pages, d, c, v);
        CopySlotsSkip(dirs0, tabs0, d, v, dirs[c]);
        return true;
      }
      ok := CopyPage(d, c, v, Entry(dirs, tabs, d, v), dirs0, tabs0, owner0, pages0);
    }
  }
}
