/**
 The memory of a process: lazy growth (sysproc.c), page faults (trap.c), growproc, fork, exit
 and wait (proc.c), against a process whose pages were all zero-filled from the start.
 */
module UserMemory {
  import opened Common
  import opened PageTables
  import opened VmSteps
  import opened VmSpaces
  import opened VmFrames
  import opened Vm

  const ZEROCELL := Cell(Filled(0), true, true)

  // ------------------------------------------------------------- the reference

  /** A process with every page in place: its size and all its user pages. */
  datatype Plain = Plain(sz: nat, cells: seq<Cell>)

  datatype Op = Sbrk(n: int) | Store(va: nat, b: Byte) | Load(va: nat)
  datatype Out = Value(v: int) | Fault

  ghost predicate Wf(p: Plain) {
    |p.cells| == KERNPAGE && p.sz < KERNBASE
  }

  /** Pages from..to filled with zeroes. */
  ghost function Zeroed(cells: seq<Cell>, from: nat, to: nat): (r: seq<Cell>)
    requires from <= to <= |cells|
    ensures |r| == |cells|
    ensures forall x :: 0 <= x < |cells| ==> r[x] == if from <= x < to then ZEROCELL else cells[x]
  {
    cells[..from] + seq(to - from, _ => ZEROCELL) + cells[to..]
  }

  ghost function PlainSbrk(p: Plain, n: int): (Plain, int)
    requires Wf(p)
  {
    if n >= 0 then
      if p.sz + n >= KERNBASE then (p, -1)
      else (Plain(p.sz + n, Zeroed(p.cells, PagesOf(p.sz), PagesOf(p.sz + n))), p.sz)
    else if p.sz + n < 0 then (p, if p.sz == 0 then -1 else p.sz)
    else if p.sz + n == 0 then (Plain(p.sz, Zeroed(p.cells, 0, PagesOf(p.sz))), -1)
    else (Plain(p.sz + n, Zeroed(p.cells, PagesOf(p.sz + n), PagesOf(p.sz))), p.sz)
  }

  /** A store or load by the program, with the page in place. */
  ghost function PlainAccess(p: Plain, op: Op): (Plain, Out)
    requires Wf(p) && !op.Sbrk? && op.va / PGSIZE < KERNPAGE
  {
    var c := p.cells[op.va / PGSIZE];
    if !c.u || (op.Store? && !c.w) then (p, Fault)
    else if op.Load? then (p, Value(c.bytes[op.va % PGSIZE]))
    else (p.(cells := p.cells[op.va / PGSIZE := c.(bytes := c.bytes[op.va % PGSIZE := op.b])]), Value(0))
  }

  ghost function PlainStep(p: Plain, op: Op): (Plain, Out)
    requires Wf(p)
  {
    if op.Sbrk? then var (q, r) := PlainSbrk(p, op.n); (q, Value(r))
    else if op.va >= p.sz then (p, Fault)
    else PlainAccess(p, op)
  }

  /**
   What sbrk or an instruction may do. Beyond the size, but in the last page, it is an access
   or a fault: that depends on whether the page is there yet.
   */
  ghost predicate Acts(p: Plain, op: Op, q: Plain, out: Out)
    requires Wf(p)
  {
    || (q, out) == PlainStep(p, op)
    || (!op.Sbrk? && p.sz <= op.va < PagesOf(p.sz) * PGSIZE && (q, out) == PlainAccess(p, op))
  }

  lemma PlainStepWf(p: Plain, op: Op)
    requires Wf(p)
    ensures Wf(PlainStep(p, op).0)
  {
  }

  ghost function PlainRun(p: Plain, ops: seq<Op>): (r: (Plain, seq<Out>))
    requires Wf(p)
    ensures Wf(r.0) && |r.1| == |ops|
  {
    if ops == [] then (p, [])
    else
      var (q, outs) := PlainRun(p, ops[..|ops| - 1]);
      PlainStepWf(q, ops[|ops| - 1]);
      var (q', out) := PlainStep(q, ops[|ops| - 1]);
      (q', outs + [out])
  }

  // ------------------------------------------------------- what the reference means

  /** No operation stores to address va. */
  ghost predicate Unstored(ops: seq<Op>, va: nat) {
    forall i :: 0 <= i < |ops| ==> !(ops[i].Store? && ops[i].va == va)
  }

  /** No operation gives up the page of address va: no sbrk shrinks the process to a size from 0 to va. */
  ghost predicate Retains(p: Plain, ops: seq<Op>, va: nat)
    requires Wf(p)
  {
    ops == [] ||
    var n := |ops| - 1;
    && Retains(p, ops[..n], va)
    && (ops[n].Sbrk? && ops[n].n < 0 ==> !(0 <= PlainRun(p, ops[..n]).0.sz + ops[n].n <= va))
  }

  /** The byte at address va, of a page that the program may use. */
  ghost predicate Holds(p: Plain, va: nat, b: Byte)
    requires Wf(p) && va / PGSIZE < KERNPAGE
  {
    p.cells[va / PGSIZE].bytes[va % PGSIZE] == b && p.cells[va / PGSIZE].u && p.cells[va / PGSIZE].w
  }

  lemma SbrkKeepsZero(p: Plain, n: int, va: nat)
    requires Wf(p) && va / PGSIZE < KERNPAGE && Holds(p, va, 0)
    ensures Wf(PlainSbrk(p, n).0) && Holds(PlainSbrk(p, n).0, va, 0)
  {
  }

  lemma AccessKeeps(p: Plain, op: Op, va: nat, b: Byte)
    requires Wf(p) && va / PGSIZE < KERNPAGE && Holds(p, va, b) && !op.Sbrk? && !(op.Store? && op.va == va)
    ensures Wf(PlainStep(p, op).0) && Holds(PlainStep(p, op).0, va, b) && PlainStep(p, op).0.sz == p.sz
  {
  }

  /** A byte that was 0 is 0 until it is stored to, whatever becomes of its page. */
  lemma {:induction false} StaysZero(p: Plain, ops: seq<Op>, va: nat)
    requires Wf(p) && va / PGSIZE < KERNPAGE && Holds(p, va, 0) && Unstored(ops, va)
    ensures Holds(PlainRun(p, ops).0, va, 0)
  {
    if ops != [] {
      var n := |ops| - 1;
      StaysZero(p, ops[..n], va);
      var q := PlainRun(p, ops[..n]).0;
      if ops[n].Sbrk? {
        SbrkKeepsZero(q, ops[n].n, va);
      } else {
        AccessKeeps(q, ops[n], va, 0);
      }
    }
  }

  lemma SbrkKeeps(p: Plain, n: int, va: nat, b: Byte)
    requires Wf(p) && va < p.sz && Holds(p, va, b) && (n < 0 ==> !(0 <= p.sz + n <= va))
    ensures Wf(PlainSbrk(p, n).0) && Holds(PlainSbrk(p, n).0, va, b) && va < PlainSbrk(p, n).0.sz
  {
    PageBelow(p.sz, va);
    if n < 0 && p.sz + n > va {
      PageBelow(p.sz + n, va);
    }
  }

  lemma PageBelow(sz: nat, va: nat)
    requires va < sz
    ensures va / PGSIZE < PagesOf(sz)
  {
  }

  /** A byte below the size is what was stored until it is stored to again, if its page is not given up. */
  lemma {:induction false} StaysStored(p: Plain, ops: seq<Op>, va: nat, b: Byte)
    requires Wf(p) && va < p.sz && Holds(p, va, b) && Unstored(ops, va) && Retains(p, ops, va)
    ensures Holds(PlainRun(p, ops).0, va, b) && va < PlainRun(p, ops).0.sz
  {
    if ops != [] {
      var n := |ops| - 1;
      StaysStored(p, ops[..n], va, b);
      var q := PlainRun(p, ops[..n]).0;
      if ops[n].Sbrk? {
        SbrkKeeps(q, ops[n].n, va, b);
      } else {
        AccessKeeps(q, ops[n], va, b);
      }
    }
  }

  /**
   sbrk returns the old size r, and every byte of the new pages, from PGROUNDUP(r) on, reads as
   0 until it is stored to, as long as it is below the size.
   */
  lemma SbrkGivesZeroes(p: Plain, n: nat, ops: seq<Op>, va: nat)
    requires Wf(p) && p.sz + n < KERNBASE && PagesOf(p.sz) * PGSIZE <= va < p.sz + n && Unstored(ops, va)
    ensures var (q, out) := PlainStep(p, Sbrk(n)); Wf(q) && out == Value(p.sz) && q.sz == p.sz + n
    ensures var q := PlainRun(PlainStep(p, Sbrk(n)).0, ops).0;
            PlainStep(q, Load(va)).1 == if va < q.sz then Value(0) else Fault
  {
    var q := PlainStep(p, Sbrk(n)).0;
    PageBetween(p.sz, n, va);
    assert Holds(q, va, 0);
    StaysZero(q, ops, va);
  }

  lemma PageBetween(sz: nat, n: nat, va: nat)
    requires sz + n < KERNBASE && PagesOf(sz) * PGSIZE <= va < sz + n
    ensures PagesOf(sz) <= va / PGSIZE < PagesOf(sz + n) <= KERNPAGE
  {
  }

  /** A store that succeeds is what loads return until the next store, while the page is not given up. */
  lemma LoadsLastStored(p: Plain, va: nat, b: Byte, q: Plain, ops: seq<Op>)
    requires Wf(p) && Wf(q) && PlainStep(p, Store(va, b)) == (q, Value(0)) && Unstored(ops, va) && Retains(q, ops, va)
    ensures PlainStep(PlainRun(q, ops).0, Load(va)).1 == Value(b)
  {
    assert Holds(q, va, b);
    StaysStored(q, ops, va, b);
  }

  // --------------------------------------------------------------- lazy processes

  /** No user page is present at or above PGROUNDUP(sz). */
  ghost predicate NothingAbove(dirs: Dirs, tabs: Tables, d: nat, sz: nat)
    requires d in dirs
  {
    forall vpn :: PagesOf(sz) <= vpn < KERNPAGE ==> Entry(dirs, tabs, d, vpn) == Absent
  }

  ghost predicate CellIs(dirs: Dirs, tabs: Tables, pages: Pages, d: nat, cells: seq<Cell>, vpn: nat)
    requires d in dirs && vpn < KERNPAGE && |cells| == KERNPAGE
  {
    CellAt(dirs, tabs, pages, d, vpn) == cells[vpn]
  }

  /** The pages of directory d are seen as `cells`. */
  ghost predicate Sees(dirs: Dirs, tabs: Tables, pages: Pages, d: nat, cells: seq<Cell>) {
    && d in dirs && |cells| == KERNPAGE
    && forall vpn :: 0 <= vpn < KERNPAGE ==> CellIs(dirs, tabs, pages, d, cells, vpn)
  }

  lemma SeesStill(dirs: Dirs, tabs: Tables, pages: Pages, dirs': Dirs, tabs': Tables, pages': Pages, d: nat,
                  cells: seq<Cell>)
    requires Sees(dirs, tabs, pages, d, cells) && Invisible(dirs, tabs, pages, dirs', tabs', pages')
    ensures Sees(dirs', tabs', pages', d, cells)
  {
    assert SameMemory(dirs, tabs, pages, dirs', tabs', pages', d);
    forall vpn | 0 <= vpn < KERNPAGE ensures CellIs(dirs', tabs', pages', d, cells, vpn) {
      assert CellIs(dirs, tabs, pages, d, cells, vpn) && CellSame(dirs, tabs, pages, dirs', tabs', pages', d, vpn);
    }
  }

  /** Growing without allocating anything: the pages above were zeroes already. */
  lemma SeesGrown(dirs: Dirs, tabs: Tables, pages: Pages, d: nat, cells: seq<Cell>, sz: nat, newsz: nat)
    requires Sees(dirs, tabs, pages, d, cells) && NothingAbove(dirs, tabs, d, sz) && sz <= newsz < KERNBASE
    ensures PagesOf(sz) <= PagesOf(newsz) <= KERNPAGE && Zeroed(cells, PagesOf(sz), PagesOf(newsz)) == cells
    ensures NothingAbove(dirs, tabs, d, newsz)
  {
    forall x | 0 <= x < KERNPAGE ensures Zeroed(cells, PagesOf(sz), PagesOf(newsz))[x] == cells[x] {
      assert CellIs(dirs, tabs, pages, d, cells, x);
    }
  }

  /** Freed pages read as zeroes again. */
  lemma SeesShrunk(dirs: Dirs, tabs: Tables, owner': Owner, pages: Pages, tabs': Tables, pages': Pages, d: nat,
                   cells: seq<Cell>, from: nat, to: nat)
    requires Sees(dirs, tabs, pages, d, cells) && from <= to <= KERNPAGE && Unmaps(dirs, tabs, tabs', d, from, to)
    requires Owned(dirs, tabs', owner') && PagesKept(owner', pages, pages')
    ensures Sees(dirs, tabs', pages', d, Zeroed(cells, from, to))
  {
    var cells' := Zeroed(cells, from, to);
    forall vpn | 0 <= vpn < KERNPAGE ensures CellIs(dirs, tabs', pages', d, cells', vpn) {
      assert CellIs(dirs, tabs, pages, d, cells, vpn);
      UnmapsEntry(dirs, tabs, tabs', d, from, to, d, vpn);
      if Entry(dirs, tabs', d, vpn).Map? {
        MappedIsOwned(dirs, tabs', owner', d, vpn);
        assert PageKept(pages, pages', Entry(dirs, tabs', d, vpn).frame);
      }
    }
  }

  /** The sum in 32 bits: below 0 it wraps around to a larger size. */
  lemma SmallerSize(sz: nat, n: int)
    requires sz < KERNBASE && -UINT / 2 <= n < 0
    ensures if sz + n >= 0 then (sz + n) % UINT == sz + n < sz else sz <= (sz + n) % UINT == sz + n + UINT
  {
    if sz + n < 0 {
      assert (sz + n) % UINT == (sz + n + UINT) % UINT;
    }
  }

  /** What freeing the pages above newsz leaves. */
  lemma Shrunk(dirs: Dirs, tabs: Tables, owner: Owner, pages: Pages, tabs': Tables, owner': Owner, pages': Pages,
               d: nat, cells: seq<Cell>, newsz: nat, sz: nat)
    requires Sees(dirs, tabs, pages, d, cells) && newsz < sz < KERNBASE && NothingAbove(dirs, tabs, d, sz)
    requires Unmaps(dirs, tabs, tabs', d, PagesOf(newsz), PagesOf(sz))
    requires Unowns(owner, owner', d, PagesOf(newsz), PagesOf(sz))
    requires Owned(dirs, tabs', owner') && PagesKept(owner', pages, pages')
    ensures PagesOf(newsz) <= PagesOf(sz) <= KERNPAGE
    ensures Sees(dirs, tabs', pages', d, Zeroed(cells, PagesOf(newsz), PagesOf(sz)))
    ensures NothingAbove(dirs, tabs', d, newsz) && NothingAbove(dirs, tabs', d, sz)
    ensures OthersUntouched(dirs, tabs, pages, dirs, tabs', pages', d) && StacksKept(owner, owner')
  {
    SeesShrunk(dirs, tabs, owner', pages, tabs', pages', d, cells, PagesOf(newsz), PagesOf(sz));
    AboveShrunk(dirs, tabs, tabs', d, newsz, sz);
    UnmapsOthers(dirs, tabs, tabs', d, PagesOf(newsz), PagesOf(sz));
    FreedUntouched(dirs, tabs, pages, dirs, tabs', owner', pages', d);
    UnownsStacks(owner, owner', d, PagesOf(newsz), PagesOf(sz));
  }

  /** A store into a present page. */
  lemma SeesStored(dirs: Dirs, tabs: Tables, owner: Owner, pages: Pages, d: nat, cells: seq<Cell>, vpn: nat, p: Page)
    requires Owned(dirs, tabs, owner) && Sees(dirs, tabs, pages, d, cells) && vpn < KERNPAGE
    requires Entry(dirs, tabs, d, vpn).Map?
    ensures Sees(dirs, tabs, pages[Entry(dirs, tabs, d, vpn).frame := p], d, cells[vpn := cells[vpn].(bytes := p)])
    ensures OthersUntouched(dirs, tabs, pages, dirs, tabs, pages[Entry(dirs, tabs, d, vpn).frame := p], d)
  {
    var f := Entry(dirs, tabs, d, vpn).frame;
    var pages', cells' := pages[f := p], cells[vpn := cells[vpn].(bytes := p)];
    forall x | 0 <= x < KERNPAGE ensures CellIs(dirs, tabs, pages', d, cells', x) {
      assert CellIs(dirs, tabs, pages, d, cells, x);
      if Entry(dirs, tabs, d, x).Map? && Entry(dirs, tabs, d, x).frame == f {
        OnePage(dirs, tabs, owner, d, vpn, d, x);
      }
    }
    forall e | e in dirs && e != d ensures Untouched(dirs, tabs, pages, dirs, tabs, pages', e) {
      forall x | 0 <= x < KERNPAGE ensures CellSame(dirs, tabs, pages, dirs, tabs, pages', e, x) {
        if Entry(dirs, tabs, e, x).Map? && Entry(dirs, tabs, e, x).frame == f {
          OnePage(dirs, tabs, owner, d, vpn, e, x);
        }
      }
    }
  }

  lemma AbovePages(dirs: Dirs, tabs: Tables, dirs': Dirs, tabs': Tables, d: nat, sz: nat, vpn: nat, e: Pte)
    requires Maps(dirs, tabs, dirs', tabs', d, vpn, 1, e) && d in dirs && NothingAbove(dirs, tabs, d, sz)
    requires vpn < PagesOf(sz)
    ensures d in dirs' && NothingAbove(dirs', tabs', d, sz)
  {
    assert MapsIn(dirs, tabs, dirs', tabs', d, vpn, 1, e, d);
    forall x | PagesOf(sz) <= x < KERNPAGE ensures Entry(dirs', tabs', d, x) == Absent {
      assert MapsEntry(dirs, tabs, dirs', tabs', d, vpn, 1, e, d, x);
    }
  }

  lemma AboveSame(dirs: Dirs, tabs: Tables, dirs': Dirs, tabs': Tables, d: nat, sz: nat)
    requires AllSame(dirs, tabs, dirs', tabs') && d in dirs && NothingAbove(dirs, tabs, d, sz)
    ensures d in dirs' && NothingAbove(dirs', tabs', d, sz)
  {
    assert SameEntries(dirs, tabs, dirs', tabs', d);
    forall x | PagesOf(sz) <= x < KERNPAGE ensures Entry(dirs', tabs', d, x) == Absent {
      assert EntrySame(dirs, tabs, dirs', tabs', d, x);
    }
  }

  /** One more frame is in use, and nothing refers to it. */
  ghost predicate Leaked(owner: Owner, owner': Owner) {
    exists f :: f !in owner && f in owner' && owner' == owner[f := Other]
  }

  // ------------------------------------------------------------ the other processes

  /** Neither the page tables of directory e nor its memory have changed. */
  ghost predicate Untouched(dirs: Dirs, tabs: Tables, pages: Pages, dirs': Dirs, tabs': Tables, pages': Pages, e: nat) {
    SameEntries(dirs, tabs, dirs', tabs', e) && SameMemory(dirs, tabs, pages, dirs', tabs', pages', e)
  }

  ghost predicate OthersUntouched(dirs: Dirs, tabs: Tables, pages: Pages, dirs': Dirs, tabs': Tables, pages': Pages,
                                  d: nat) {
    forall e {:trigger Untouched(dirs, tabs, pages, dirs', tabs', pages', e)} ::
      e in dirs && e != d ==> Untouched(dirs, tabs, pages, dirs', tabs', pages', e)
  }

  /** Kernel stacks stay kernel stacks. */
  ghost predicate StacksKept(owner: Owner, owner': Owner) {
    forall f :: f in owner && owner[f] == Other ==> RoleKept(owner, owner', f)
  }

  lemma UntouchedRefl(dirs: Dirs, tabs: Tables, pages: Pages, d: nat)
    ensures OthersUntouched(dirs, tabs, pages, dirs, tabs, pages, d)
  {
    forall e | e in dirs && e != d ensures Untouched(dirs, tabs, pages, dirs, tabs, pages, e) {
    }
  }

  lemma UntouchedTrans(dirs: Dirs, tabs: Tables, pages: Pages, dirs1: Dirs, tabs1: Tables, pages1: Pages,
                       dirs2: Dirs, tabs2: Tables, pages2: Pages, e: nat)
    requires Untouched(dirs, tabs, pages, dirs1, tabs1, pages1, e)
    requires Untouched(dirs1, tabs1, pages1, dirs2, tabs2, pages2, e)
    ensures Untouched(dirs, tabs, pages, dirs2, tabs2, pages2, e)
  {
    forall vpn | 0 <= vpn < ALLPAGES ensures EntrySame(dirs, tabs, dirs2, tabs2, e, vpn) {
      assert EntrySame(dirs, tabs, dirs1, tabs1, e, vpn) && EntrySame(dirs1, tabs1, dirs2, tabs2, e, vpn);
    }
    forall vpn | 0 <= vpn < KERNPAGE ensures CellSame(dirs, tabs, pages, dirs2, tabs2, pages2, e, vpn) {
      assert CellSame(dirs, tabs, pages, dirs1, tabs1, pages1, e, vpn);
      assert CellSame(dirs1, tabs1, pages1, dirs2, tabs2, pages2, e, vpn);
    }
  }

  lemma OthersUntouchedTrans(dirs: Dirs, tabs: Tables, pages: Pages, dirs1: Dirs, tabs1: Tables, pages1: Pages,
                             dirs2: Dirs, tabs2: Tables, pages2: Pages, d: nat)
    requires OthersUntouched(dirs, tabs, pages, dirs1, tabs1, pages1, d)
    requires OthersUntouched(dirs1, tabs1, pages1, dirs2, tabs2, pages2, d)
    ensures OthersUntouched(dirs, tabs, pages, dirs2, tabs2, pages2, d)
  {
    forall e | e in dirs && e != d ensures Untouched(dirs, tabs, pages, dirs2, tabs2, pages2, e) {
      assert Untouched(dirs, tabs, pages, dirs1, tabs1, pages1, e);
      UntouchedTrans(dirs, tabs, pages, dirs1, tabs1, pages1, dirs2, tabs2, pages2, e);
    }
  }

  /** Pages that come into one directory unseen. */
  lemma GrewUntouched(dirs: Dirs, tabs: Tables, pages: Pages, dirs': Dirs, tabs': Tables, pages': Pages, d: nat,
                      from: nat, to: nat)
    requires Grew(dirs, tabs, dirs', tabs', d, from, to) && Invisible(dirs, tabs, pages, dirs', tabs', pages')
    ensures OthersUntouched(dirs, tabs, pages, dirs', tabs', pages', d)
  {
    forall e | e in dirs && e != d ensures Untouched(dirs, tabs, pages, dirs', tabs', pages', e) {
      assert GrewIn(dirs, tabs, dirs', tabs', d, from, to, e) && SameMemory(dirs, tabs, pages, dirs', tabs', pages', e);
      forall vpn | 0 <= vpn < ALLPAGES ensures EntrySame(dirs, tabs, dirs', tabs', e, vpn) {
        assert GrewAt(dirs, tabs, dirs', tabs', d, from, to, e, vpn);
      }
    }
  }

  lemma SameUntouched(dirs: Dirs, tabs: Tables, pages: Pages, dirs': Dirs, tabs': Tables, pages': Pages, d: nat)
    requires AllSame(dirs, tabs, dirs', tabs') && Invisible(dirs, tabs, pages, dirs', tabs', pages')
    ensures OthersUntouched(dirs, tabs, pages, dirs', tabs', pages', d)
    ensures d in dirs ==> Untouched(dirs, tabs, pages, dirs', tabs', pages', d)
  {
    forall e | e in dirs ensures Untouched(dirs, tabs, pages, dirs', tabs', pages', e) {
      assert SameEntries(dirs, tabs, dirs', tabs', e) && SameMemory(dirs, tabs, pages, dirs', tabs', pages', e);
    }
  }

  /** What the frames still in use hold is what the other directories see. */
  lemma FreedUntouched(dirs: Dirs, tabs: Tables, pages: Pages, dirs': Dirs, tabs': Tables, owner': Owner, pages': Pages,
                       d: nat)
    requires Owned(dirs', tabs', owner') && OthersSame(dirs, tabs, dirs', tabs', d) && PagesKept(owner', pages, pages')
    ensures OthersUntouched(dirs, tabs, pages, dirs', tabs', pages', d)
  {
    forall e | e in dirs && e != d ensures Untouched(dirs, tabs, pages, dirs', tabs', pages', e) {
      assert SameEntries(dirs, tabs, dirs', tabs', e);
      forall vpn | 0 <= vpn < KERNPAGE ensures CellSame(dirs, tabs, pages, dirs', tabs', pages', e, vpn) {
        assert EntrySame(dirs, tabs, dirs', tabs', e, vpn);
        if Entry(dirs', tabs', e, vpn).Map? {
          MappedIsOwned(dirs', tabs', owner', e, vpn);
          assert PageKept(pages, pages', Entry(dirs', tabs', e, vpn).frame);
        }
      }
    }
  }

  lemma UnmapsOthers(dirs: Dirs, tabs: Tables, tabs': Tables, d: nat, from: nat, to: nat)
    requires Unmaps(dirs, tabs, tabs', d, from, to)
    ensures OthersSame(dirs, tabs, dirs, tabs', d)
  {
    forall e | e in dirs && e != d ensures SameEntries(dirs, tabs, dirs, tabs', e) {
      forall vpn | 0 <= vpn < ALLPAGES ensures EntrySame(dirs, tabs, dirs, tabs', e, vpn) {
        UnmapsEntry(dirs, tabs, tabs', d, from, to, e, vpn);
      }
    }
  }

  lemma GrewStacks(owner: Owner, owner': Owner, d: nat, from: nat, to: nat)
    requires GrewRoles(owner, owner', d, from, to)
    ensures StacksKept(owner, owner')
  {
    forall f | f in owner && owner[f] == Other ensures RoleKept(owner, owner', f) {
      assert GrewRoleAt(owner, owner', d, from, to, f);
    }
  }

  lemma UnownsStacks(owner: Owner, owner': Owner, d: nat, from: nat, to: nat)
    requires Unowns(owner, owner', d, from, to)
    ensures StacksKept(owner, owner')
  {
    forall f | f in owner && owner[f] == Other ensures RoleKept(owner, owner', f) {
      assert UnownsAt(owner, owner', d, from, to, f);
    }
  }

  lemma DropsStacks(owner: Owner, owner': Owner, d: nat)
    requires Drops(owner, owner', d) && (d in owner ==> owner[d] == Directory)
    ensures StacksKept(owner, owner')
  {
    forall f | f in owner && owner[f] == Other ensures RoleKept(owner, owner', f) {
      assert DropsAt(owner, owner', d, f);
    }
  }

  lemma StacksKeptTrans(owner: Owner, owner1: Owner, owner2: Owner)
    requires StacksKept(owner, owner1) && StacksKept(owner1, owner2)
    ensures StacksKept(owner, owner2)
  {
    forall f | f in owner && owner[f] == Other ensures RoleKept(owner, owner2, f) {
      assert RoleKept(owner, owner1, f) && RoleKept(owner1, owner2, f);
    }
  }

  /** The page of address va is absent, and there are not the frames for it. */
  ghost predicate LacksPage(dirs: Dirs, tabs: Tables, d: nat, va: nat, free: nat)
    requires d in dirs && va < KERNBASE
  {
    Entry(dirs, tabs, d, va / PGSIZE) == Absent && free < FramesToTouch(dirs[d], va / PGSIZE)
  }

  datatype FaultResult = Retry | Killed | OutOfMemory | KernelPanic

  class Process {
    const k: Kernel
    const pgdir: nat
    var sz: nat

    ghost predicate Valid()
      reads this, k
    {
      && k.Valid() && pgdir in k.dirs && sz < KERNBASE && NothingAbove(k.dirs, k.tabs, pgdir, sz)
    }

    ghost predicate Shows(p: Plain)
      reads this, k
    {
      p.sz == sz && Sees(k.dirs, k.tabs, k.pages, pgdir, p.cells)
    }

    constructor (k: Kernel, pgdir: nat, sz: nat)
      requires k.Valid() && pgdir in k.dirs && sz < KERNBASE && NothingAbove(k.dirs, k.tabs, pgdir, sz)
      ensures Valid() && this.k == k && this.pgdir == pgdir && this.sz == sz
    {
      this.k, this.pgdir, this.sz := k, pgdir, sz;
    }

    /**
     The page fault case of `trap`. No process sees a difference, whatever the outcome. The
     process survives exactly when the page is below sz, absent, and there are frames for it:
     one, or two if its page table is missing. The exit for lack of a page table keeps the
     frame it had allocated, which happens exactly when there is one frame and two are needed.
     */
    method PageFault(va: nat, byUser: bool) returns (r: FaultResult)
      requires Valid()
      modifies k
      ensures Valid() && k.dirs.Keys == old(k.dirs).Keys
      ensures Invisible(old(k.dirs), old(k.tabs), old(k.pages), k.dirs, k.tabs, k.pages)
      ensures OthersUntouched(old(k.dirs), old(k.tabs), old(k.pages), k.dirs, k.tabs, k.pages, pgdir)
      ensures StacksKept(old(k.owner), k.owner)
      ensures va >= sz ==> r == Killed && unchanged(k)
      ensures va < sz && Entry(old(k.dirs), old(k.tabs), pgdir, va / PGSIZE).Map? ==>
        unchanged(k) && r == if byUser then Killed else KernelPanic
      ensures va < sz && Entry(old(k.dirs), old(k.tabs), pgdir, va / PGSIZE) == Absent ==>
        r == if |old(k.free)| >= FramesToTouch(old(k.dirs)[pgdir], va / PGSIZE) then Retry else OutOfMemory
      ensures r == Retry ==> va < sz && exists f :: Entry(k.dirs, k.tabs, pgdir, va / PGSIZE) == Map(f, true, true)
      ensures r == Retry ==>
        && Grew(old(k.dirs), old(k.tabs), k.dirs, k.tabs, pgdir, va / PGSIZE, va / PGSIZE + 1)
        && GrewRoles(old(k.owner), k.owner, pgdir, va / PGSIZE, va / PGSIZE + 1)
      ensures r == Retry ==> |k.free| == |old(k.free)| - FramesToTouch(old(k.dirs)[pgdir], va / PGSIZE)
      ensures r == OutOfMemory ==>
        va < sz && k.dirs == old(k.dirs) && Entry(k.dirs, k.tabs, pgdir, va / PGSIZE) == Absent
      ensures r == OutOfMemory ==> k.free == [] && (k.owner == old(k.owner) || Leaked(old(k.owner), k.owner))
      ensures r == OutOfMemory ==>
        (Leaked(old(k.owner), k.owner) <==> FramesToTouch(old(k.dirs)[pgdir], va / PGSIZE) == 2 && |old(k.free)| == 1)
    {
      ghost var dirs0, tabs0, pages0, owner0 := k.dirs, k.tabs, k.pages, k.owner;
      AllSameRefl(k.dirs, k.tabs);
      InvisibleFrame(k.dirs, k.tabs, k.owner, k.pages, k.dirs, k.tabs, k.pages);
      UntouchedRefl(k.dirs, k.tabs, k.pages, pgdir);
      if va >= sz {
        return Killed;
      }
      var vpn := va / PGSIZE;
      var e := Entry(k.dirs, k.tabs, pgdir, vpn);
      if e.Map? {
        return if byUser then Killed else KernelPanic;
      }
      var f, ok := k.MapZeroPage(pgdir, vpn);
      if ok {
        AbovePages(dirs0, tabs0, k.dirs, k.tabs, pgdir, sz, vpn, Map(f, true, true));
        assert MapsIn(dirs0, tabs0, k.dirs, k.tabs, pgdir, vpn, 1, Map(f, true, true), pgdir);
        assert MapsEntry(dirs0, tabs0, k.dirs, k.tabs, pgdir, vpn, 1, Map(f, true, true), pgdir, vpn);
        GrewNone(dirs0, tabs0, pgdir, vpn);
        GrewMore(dirs0, tabs0, dirs0, tabs0, k.dirs, k.tabs, pgdir, vpn, vpn, Map(f, true, true));
        GrewRolesNone(owner0, pgdir, vpn);
        GrewRolesMore(owner0, owner0, k.owner, pgdir, vpn, vpn, f);
        GrewUntouched(dirs0, tabs0, pages0, k.dirs, k.tabs, k.pages, pgdir, vpn, vpn + 1);
        GrewStacks(owner0, k.owner, pgdir, vpn, vpn + 1);
        return Retry;
      }
      if f == 0 {
        return OutOfMemory;
      }
      AboveSame(dirs0, tabs0, k.dirs, k.tabs, pgdir, sz);
      SameUntouched(dirs0, tabs0, pages0, k.dirs, k.tabs, k.pages, pgdir);
      assert SameEntries(dirs0, tabs0, k.dirs, k.tabs, pgdir);
      assert EntrySame(dirs0, tabs0, k.dirs, k.tabs, pgdir, vpn);
      return OutOfMemory;
    }

    /** `growproc` for n < 0: shrinking below 0 changes nothing and reports success. */
    method Shrink(n: int, ghost p: Plain) returns (r: int)
      requires Valid() && Shows(p) && -UINT / 2 <= n < 0
      modifies this, k
      ensures Valid() && Wf(p) && Shows(PlainSbrk(p, n).0)
      ensures r == if PlainSbrk(p, n).1 == -1 then -1 else 0
      ensures old(sz) + n > 0 ==> r == 0 && sz == old(sz) + n
      ensures old(sz) + n == 0 ==> r == -1 && sz == old(sz)
      ensures old(sz) + n < 0 ==> unchanged(k) && sz == old(sz) && r == if sz == 0 then -1 else 0
      ensures old(sz) + n >= 0 ==> Unmaps(k.dirs, old(k.tabs), k.tabs, pgdir, PagesOf(old(sz) + n), PagesOf(old(sz)))
      ensures k.dirs == old(k.dirs) && |k.free| >= |old(k.free)|
      ensures OthersUntouched(old(k.dirs), old(k.tabs), old(k.pages), k.dirs, k.tabs, k.pages, pgdir)
      ensures StacksKept(old(k.owner), k.owner)
    {
      var newsz := (sz + n) % UINT;
      SmallerSize(sz, n);
      ghost var tabs0, pages0, owner0, free0 := k.tabs, k.pages, k.owner, k.free;
      UntouchedRefl(k.dirs, k.tabs, k.pages, pgdir);
      var s := k.Deallocuvm(pgdir, sz, newsz);
      if newsz < sz {
        Shrunk(k.dirs, tabs0, owner0, pages0, k.tabs, k.owner, k.pages, pgdir, p.cells, newsz, sz);
        ScanGrows(k.dirs, tabs0, pgdir, PagesOf(newsz), PagesOf(sz), free0);
      }
      if s == 0 {
        return -1;
      }
      sz := s;
      return 0;
    }

    /** `growproc` for n > 0 */
    method Grow(n: int, ghost p: Plain) returns (r: int)
      requires Valid() && Shows(p) && 0 < n < UINT / 2
      modifies this, k
      ensures Valid() && Wf(p) && (r == 0 || r == -1)
      ensures r == 0 <==>
        old(sz) + n < KERNBASE && |old(k.free)| >= FramesToGrow(old(k.dirs)[pgdir], old(sz), old(sz) + n)
      ensures Shows(if r == 0 then PlainSbrk(p, n).0 else p) && sz == if r == 0 then old(sz) + n else old(sz)
      ensures r == 0 ==> Grew(old(k.dirs), old(k.tabs), k.dirs, k.tabs, pgdir, PagesOf(old(sz)), PagesOf(sz))
      ensures Invisible(old(k.dirs), old(k.tabs), old(k.pages), k.dirs, k.tabs, k.pages)
      ensures OthersUntouched(old(k.dirs), old(k.tabs), old(k.pages), k.dirs, k.tabs, k.pages, pgdir)
      ensures StacksKept(old(k.owner), k.owner)
    {
      ghost var dirs0, tabs0, pages0, owner0 := k.dirs, k.tabs, k.pages, k.owner;
      var newsz := (sz + n) % UINT;
      assert newsz == sz + n;
      var s := k.Allocuvm(pgdir, sz, newsz);
      SeesStill(dirs0, tabs0, pages0, k.dirs, k.tabs, k.pages, pgdir, p.cells);
      if s == 0 {
        if newsz < KERNBASE {
          AboveSame(dirs0, tabs0, k.dirs, k.tabs, pgdir, sz);
          SameUntouched(dirs0, tabs0, pages0, k.dirs, k.tabs, k.pages, pgdir);
          assert RolesKept(owner0, k.owner);
        } else {
          UntouchedRefl(dirs0, tabs0, pages0, pgdir);
        }
        return -1;
      }
      GrewUntouched(dirs0, tabs0, pages0, k.dirs, k.tabs, k.pages, pgdir, PagesOf(sz), PagesOf(newsz));
      GrewStacks(owner0, k.owner, pgdir, PagesOf(sz), PagesOf(newsz));
      SeesGrown(dirs0, tabs0, pages0, pgdir, p.cells, sz, newsz);
      AboveGrown(dirs0, tabs0, k.dirs, k.tabs, pgdir, sz, newsz);
      sz := s;
      return 0;
    }

    /**
     `growproc`: what is seen is what a zero-filled process would show. Growing succeeds if and
     only if the size stays below KERNBASE and there are frames for all the new pages.
     */
    method Growproc(n: int, ghost p: Plain) returns (r: int)
      requires Valid() && Shows(p) && -UINT / 2 <= n < UINT / 2
      modifies this, k
      ensures Valid() && Wf(p)
      ensures n > 0 ==> (r == 0 <==>
        old(sz) + n < KERNBASE && |old(k.free)| >= FramesToGrow(old(k.dirs)[pgdir], old(sz), old(sz) + n))
      ensures n <= 0 ==> r == if PlainSbrk(p, n).1 == -1 then -1 else 0
      ensures r == 0 || r == -1
      ensures n >= 0 ==> sz == if r == 0 then old(sz) + n else old(sz)
      ensures n == 0 ==> r == 0 && unchanged(k)
      ensures n > 0 && r == 0 ==>
        Grew(old(k.dirs), old(k.tabs), k.dirs, k.tabs, pgdir, PagesOf(old(sz)), PagesOf(sz))
      ensures n < 0 && old(sz) + n > 0 ==> r == 0 && sz == old(sz) + n
      ensures n < 0 && old(sz) + n == 0 ==> r == -1 && sz == old(sz)
      ensures n < 0 && old(sz) + n < 0 ==> unchanged(k) && sz == old(sz) && r == if sz == 0 then -1 else 0
      ensures n < 0 && old(sz) + n >= 0 ==>
        Unmaps(k.dirs, old(k.tabs), k.tabs, pgdir, PagesOf(old(sz) + n), PagesOf(old(sz)))
      ensures n > 0 && r == -1 ==> Shows(p)
      ensures n <= 0 || r == 0 ==> Shows(PlainSbrk(p, n).0)
      ensures n >= 0 ==> Invisible(old(k.dirs), old(k.tabs), old(k.pages), k.dirs, k.tabs, k.pages)
      ensures n <= 0 ==> k.dirs == old(k.dirs) && |k.free| >= |old(k.free)|
      ensures StacksKept(old(k.owner), k.owner)
      ensures OthersUntouched(old(k.dirs), old(k.tabs), old(k.pages), k.dirs, k.tabs, k.pages, pgdir)
    {
      if n < 0 {
        r := Shrink(n, p);
        return;
      }
      if n == 0 {
        SeesGrown(k.dirs, k.tabs, k.pages, pgdir, p.cells, sz, sz);
        AllSameRefl(k.dirs, k.tabs);
        InvisibleFrame(k.dirs, k.tabs, k.owner, k.pages, k.dirs, k.tabs, k.pages);
        UntouchedRefl(k.dirs, k.tabs, k.pages, pgdir);
        return 0;
      }
      r := Grow(n, p);
    }

    /** `sys_sbrk`: growing allocates nothing, yet what is seen is what a zero-filled process would show. */
    method SysSbrk(n: int, ghost p: Plain) returns (r: int)
      requires Valid() && Shows(p) && -UINT / 2 <= n < UINT / 2
      modifies this, k
      ensures Valid() && Wf(p) && Shows(PlainSbrk(p, n).0) && r == PlainSbrk(p, n).1
      ensures n >= 0 ==> unchanged(k)
      ensures n >= 0 && old(sz) + n < KERNBASE ==> r == old(sz) && sz == old(sz) + n
      ensures n >= 0 && old(sz) + n >= KERNBASE ==> r == -1 && sz == old(sz)
      ensures n < 0 && old(sz) + n > 0 ==> r == old(sz) && sz == old(sz) + n
      ensures n < 0 && old(sz) + n == 0 ==> r == -1 && sz == old(sz)
      ensures n < 0 && old(sz) + n < 0 ==> unchanged(k) && sz == old(sz) && r == if sz == 0 then -1 else sz
      ensures n < 0 && old(sz) + n >= 0 ==>
        Unmaps(k.dirs, old(k.tabs), k.tabs, pgdir, PagesOf(old(sz) + n), PagesOf(old(sz)))
      ensures k.dirs == old(k.dirs) && |k.free| >= |old(k.free)|
      ensures OthersUntouched(old(k.dirs), old(k.tabs), old(k.pages), k.dirs, k.tabs, k.pages, pgdir)
      ensures StacksKept(old(k.owner), k.owner)
    {
      var addr := sz;
      UntouchedRefl(k.dirs, k.tabs, k.pages, pgdir);
      if n >= 0 {
        if (sz + n) % UINT >= KERNBASE {
          return -1;
        }
        SeesGrown(k.dirs, k.tabs, k.pages, pgdir, p.cells, sz, sz + n);
        sz := sz + n;
      } else {
        var g := Growproc(n, p);
        if g < 0 {
          return -1;
        }
      }
      return addr;
    }

    /** What keeps the program from using address va. */
    ghost predicate Lacking(va: nat, free: nat)
      requires va < KERNBASE && pgdir in k.dirs
      reads this, k
    {
      LacksPage(k.dirs, k.tabs, pgdir, va, free)
    }

    /** The page of an address below sz, brought in by a page fault if it is absent. */
    method Touch(va: nat, ghost p: Plain) returns (r: FaultResult)
      requires Valid() && Shows(p) && va < sz
      modifies k
      ensures Valid() && Shows(p) && va / PGSIZE < KERNPAGE
      ensures r == Retry || r == OutOfMemory
      ensures r == Retry ==> Entry(k.dirs, k.tabs, pgdir, va / PGSIZE).Map? && |k.free| + 2 >= |old(k.free)|
      ensures r == OutOfMemory <==> old(Lacking(va, |k.free|))
      ensures r == OutOfMemory ==> k.free == [] && Lacking(va, |old(k.free)|)
      ensures OthersUntouched(old(k.dirs), old(k.tabs), old(k.pages), k.dirs, k.tabs, k.pages, pgdir)
      ensures StacksKept(old(k.owner), k.owner)
    {
      UntouchedRefl(k.dirs, k.tabs, k.pages, pgdir);
      if Entry(k.dirs, k.tabs, pgdir, va / PGSIZE).Map? {
        return Retry;
      }
      ghost var dirs0, tabs0, pages0 := k.dirs, k.tabs, k.pages;
      r := PageFault(va, true);
      SeesStill(dirs0, tabs0, pages0, k.dirs, k.tabs, k.pages, pgdir, p.cells);
    }

    /** A store or load of the program to a page that is present. */
    method Instruct(op: Op, ghost p: Plain) returns (out: Out)
      requires Valid() && Shows(p) && !op.Sbrk? && op.va / PGSIZE < KERNPAGE
      requires Entry(k.dirs, k.tabs, pgdir, op.va / PGSIZE).Map?
      modifies k`pages
      ensures Valid() && Wf(p) && out == PlainAccess(p, op).1 && Shows(PlainAccess(p, op).0)
      ensures var e := Entry(k.dirs, k.tabs, pgdir, op.va / PGSIZE);
              var page := Contents(old(k.pages), e.frame);
              if !e.u || (op.Store? && !e.w) then out == Fault && k.pages == old(k.pages)
              else if op.Load? then out == Value(page[op.va % PGSIZE]) && k.pages == old(k.pages)
              else out == Value(0) && k.pages == old(k.pages)[e.frame := page[op.va % PGSIZE := op.b]]
      ensures OthersUntouched(k.dirs, k.tabs, old(k.pages), k.dirs, k.tabs, k.pages, pgdir)
    {
      UntouchedRefl(k.dirs, k.tabs, k.pages, pgdir);
      var vpn := op.va / PGSIZE;
      var e := Entry(k.dirs, k.tabs, pgdir, vpn);
      assert CellIs(k.dirs, k.tabs, k.pages, pgdir, p.cells, vpn);
      if !e.u || (op.Store? && !e.w) {
        return Fault;
      }
      if op.Load? {
        return Value(Contents(k.pages, e.frame)[op.va % PGSIZE]);
      }
      var page := Contents(k.pages, e.frame)[op.va % PGSIZE := op.b];
      SeesStored(k.dirs, k.tabs, k.owner, k.pages, pgdir, p.cells, vpn, page);
      k.pages := k.pages[e.frame := page];
      return Value(0);
    }

    /** A store or load instruction of the program at an address below sz. */
    method Access(op: Op, ghost p: Plain) returns (out: Out, r: FaultResult)
      requires Valid() && Shows(p) && !op.Sbrk? && op.va < sz
      modifies k
      ensures Valid() && Wf(p)
      ensures r == OutOfMemory <==> old(Lacking(op.va, |k.free|))
      ensures r == OutOfMemory ==> k.free == [] && Shows(p) && Lacking(op.va, |old(k.free)|)
      ensures r == Retry || r == OutOfMemory
      ensures r == Retry ==> |k.free| + 2 >= |old(k.free)|
      ensures r == Retry ==> out == PlainStep(p, op).1 && Shows(PlainStep(p, op).0)
      ensures OthersUntouched(old(k.dirs), old(k.tabs), old(k.pages), k.dirs, k.tabs, k.pages, pgdir)
      ensures StacksKept(old(k.owner), k.owner)
    {
      ghost var dirs0, tabs0, pages0 := k.dirs, k.tabs, k.pages;
      r := Touch(op.va, p);
      out := Fault;
      if r == Retry {
        ghost var pages1 := k.pages;
        out := Instruct(op, p);
        OthersUntouchedTrans(dirs0, tabs0, pages0, k.dirs, k.tabs, pages1, k.dirs, k.tabs, k.pages, pgdir);
      }
    }

    /**
     An instruction that reaches beyond the size: an access, if it stays in the last page and
     that page is present, and otherwise a page fault that kills the process.
     */
    method AccessPast(op: Op, ghost p: Plain) returns (out: Out, ghost q: Plain)
      requires Valid() && Shows(p) && !op.Sbrk? && op.va >= sz
      modifies k`pages
      ensures Valid() && Wf(p) && Acts(p, op, q, out) && Shows(q)
      ensures OthersUntouched(k.dirs, k.tabs, old(k.pages), k.dirs, k.tabs, k.pages, pgdir)
    {
      UntouchedRefl(k.dirs, k.tabs, k.pages, pgdir);
      if op.va / PGSIZE < KERNPAGE && Entry(k.dirs, k.tabs, pgdir, op.va / PGSIZE).Map? {
        q := PlainAccess(p, op).0;
        out := Instruct(op, p);
        return;
      }
      return Fault, p;
    }

    /** sbrk or an instruction of the program, whatever the address. */
    method Perform(op: Op, ghost p: Plain) returns (out: Out, r: FaultResult, ghost q: Plain)
      requires Valid() && Shows(p) && (op.Sbrk? ==> -UINT / 2 <= op.n < UINT / 2)
      modifies this, k
      ensures Valid() && Wf(p) && Shows(q)
      ensures r == OutOfMemory <==> old(!op.Sbrk? && op.va < sz && Lacking(op.va, |k.free|))
      ensures r == OutOfMemory ==> sz == old(sz) && k.free == [] && Lacking(op.va, |old(k.free)|)
      ensures r == Retry || r == OutOfMemory
      ensures if r == Retry then Acts(p, op, q, out) && |k.free| + 2 >= |old(k.free)| else q == p
      ensures OthersUntouched(old(k.dirs), old(k.tabs), old(k.pages), k.dirs, k.tabs, k.pages, pgdir)
      ensures StacksKept(old(k.owner), k.owner)
    {
      q, r, out := p, Retry, Fault;
      if op.Sbrk? {
        var v := SysSbrk(op.n, p);
        out, q := Value(v), PlainSbrk(p, op.n).0;
      } else if op.va < sz {
        out, r := Access(op, p);
        if r == Retry {
          q := PlainStep(p, op).0;
        }
      } else {
        out, q := AccessPast(op, p);
      }
    }

    /**
     Any run of sbrk, stores and loads: results and memory are those of the process whose pages
     were all zero-filled from the start, until the program dies, memory runs out, or it
     reaches beyond its size. Memory runs out only at an access whose page is absent and for
     which there are not the one or two frames it takes (`left` is what there was), so never
     with two frames for every operation.
     */
    method Run(ops: seq<Op>, ghost p: Plain) returns (outs: seq<Out>, outOfMemory: bool, ghost left: nat)
      requires Valid() && Shows(p)
      requires forall i :: 0 <= i < |ops| && ops[i].Sbrk? ==> -UINT / 2 <= ops[i].n < UINT / 2
      modifies this, k
      ensures Valid() && Wf(p) && |outs| <= |ops|
      ensures outs == PlainRun(p, ops[..|outs|]).1 && Shows(PlainRun(p, ops[..|outs|]).0)
      ensures |outs| < |ops| && (outs == [] || outs[|outs| - 1] != Fault) && !outOfMemory ==>
        !ops[|outs|].Sbrk? && ops[|outs|].va >= sz
      ensures outOfMemory ==>
        |outs| < |ops| && !ops[|outs|].Sbrk? && ops[|outs|].va < sz && Lacking(ops[|outs|].va, left) && k.free == []
      ensures |old(k.free)| >= 2 * |ops| ==> !outOfMemory
      ensures OthersUntouched(old(k.dirs), old(k.tabs), old(k.pages), k.dirs, k.tabs, k.pages, pgdir)
      ensures StacksKept(old(k.owner), k.owner)
    {
      ghost var dirs0, tabs0, pages0, owner0 := k.dirs, k.tabs, k.pages, k.owner;
      UntouchedRefl(dirs0, tabs0, pages0, pgdir);
      outs, outOfMemory, left := [], false, |k.free|;
      assert ops[..0] == [];
      while |outs| < |ops| && (outs == [] || outs[|outs| - 1] != Fault)
        invariant Performed(p, ops, outs) && !outOfMemory && |k.free| + 2 * |outs| >= |old(k.free)|
        invariant OthersUntouched(dirs0, tabs0, pages0, k.dirs, k.tabs, k.pages, pgdir) && StacksKept(owner0, k.owner)
        decreases |ops| - |outs|
      {
        ghost var dirs1, tabs1, pages1, owner1 := k.dirs, k.tabs, k.pages, k.owner;
        if !ops[|outs|].Sbrk? && ops[|outs|].va >= sz {
          return;
        }
        left := |k.free|;
        outs, outOfMemory := PerformNext(ops, outs, p);
        OthersUntouchedTrans(dirs0, tabs0, pages0, dirs1, tabs1, pages1, k.dirs, k.tabs, k.pages, pgdir);
        StacksKeptTrans(owner0, owner1, k.owner);
        if outOfMemory {
          return;
        }
      }
    }

    /** The first operations have been performed, with the results of the zero-filled process. */
    ghost predicate Performed(p: Plain, ops: seq<Op>, outs: seq<Out>)
      reads this, k
    {
      && Valid() && Wf(p) && |outs| <= |ops|
      && outs == PlainRun(p, ops[..|outs|]).1 && Shows(PlainRun(p, ops[..|outs|]).0)
    }

    /** One more operation. */
    method PerformNext(ops: seq<Op>, outs: seq<Out>, ghost p: Plain) returns (outs': seq<Out>, outOfMemory: bool)
      requires Performed(p, ops, outs) && |outs| < |ops|
      requires if ops[|outs|].Sbrk? then -UINT / 2 <= ops[|outs|].n < UINT / 2 else ops[|outs|].va < sz
      modifies this, k
      ensures Performed(p, ops, outs') && if outOfMemory then outs' == outs else |outs'| == |outs| + 1
      ensures outOfMemory ==>
        !ops[|outs|].Sbrk? && ops[|outs|].va < sz && Lacking(ops[|outs|].va, |old(k.free)|) && k.free == []
      ensures outOfMemory ==> |old(k.free)| < 2
      ensures !outOfMemory ==> |k.free| + 2 >= |old(k.free)|
      ensures OthersUntouched(old(k.dirs), old(k.tabs), old(k.pages), k.dirs, k.tabs, k.pages, pgdir)
      ensures StacksKept(old(k.owner), k.owner)
    {
      var i, op := |outs|, ops[|outs|];
      assert ops[..i + 1][..i] == ops[..i] && ops[..i + 1][i] == op;
      ghost var q;
      var out, r;
      out, r, q := Perform(op, PlainRun(p, ops[..i]).0);
      outOfMemory := r == OutOfMemory;
      outs' := if outOfMemory then outs else outs + [out];
    }

    /**
     The memory part of `fork`: the child sees what the parent sees, in frames of its own, and
     nobody else sees a difference; or there is no child and the same frames are in use. There
     is a child if and only if there are frames for the kernel part, the pages that are present
     and their page tables.
     */
    method Fork(ghost p: Plain) returns (child: Process?)
      requires Valid() && Shows(p)
      modifies k
      ensures Valid() && Shows(p)
      ensures Invisible(old(k.dirs), old(k.tabs), old(k.pages), k.dirs, k.tabs, k.pages)
      ensures OthersUntouched(old(k.dirs), old(k.tabs), old(k.pages), k.dirs, k.tabs, k.pages, pgdir)
      ensures StacksKept(old(k.owner), k.owner)
      ensures child != null <==>
        |old(k.free)| >= SETUPFRAMES + FramesToCopy(old(k.dirs), old(k.tabs), pgdir, PagesOf(sz))
      ensures child == null ==> k.owner == old(k.owner)
      ensures child != null ==>
        && fresh(child) && child.k == k && child.sz == sz && child.pgdir !in old(k.dirs) && child.Valid()
        && child.Shows(p)
        && Disjoint(k.dirs, k.tabs, pgdir, child.pgdir)
    {
      ghost var dirs0, tabs0, pages0 := k.dirs, k.tabs, k.pages;
      var c := k.Copyuvm(pgdir, sz);
      SeesStill(dirs0, tabs0, pages0, k.dirs, k.tabs, k.pages, pgdir, p.cells);
      AboveSame(dirs0, tabs0, k.dirs, k.tabs, pgdir, sz);
      SameUntouched(dirs0, tabs0, pages0, k.dirs, k.tabs, k.pages, pgdir);
      if c == 0 {
        return null;
      }
      CopiedSees(dirs0, tabs0, pages0, k.dirs, k.tabs, k.pages, pgdir, c, sz, p.cells);
      CopiedDisjoint(k.dirs, k.tabs, k.owner, pgdir, c);
      child := new Process(k, c, sz);
    }

    /** The memory part of `exit`: the user pages go. */
    method Exit()
      requires Valid()
      modifies k
      ensures k.Valid() && k.dirs == old(k.dirs) && NoUserPages(k.dirs, k.tabs, pgdir)
      ensures Unowns(old(k.owner), k.owner, pgdir, 0, KERNPAGE)
      ensures OthersSame(k.dirs, old(k.tabs), k.dirs, k.tabs, pgdir) && PagesKept(k.owner, old(k.pages), k.pages)
      ensures OthersUntouched(k.dirs, old(k.tabs), old(k.pages), k.dirs, k.tabs, k.pages, pgdir)
      ensures StacksKept(old(k.owner), k.owner)
    {
      ghost var tabs0, owner0, pages0 := k.tabs, k.owner, k.pages;
      var r := k.Deallocuvm(pgdir, KERNBASE, 0);
      AllUnmapped(k.dirs, tabs0, k.tabs, pgdir);
      FreedUntouched(k.dirs, tabs0, pages0, k.dirs, k.tabs, k.owner, k.pages, pgdir);
      UnownsStacks(owner0, k.owner, pgdir, 0, KERNPAGE);
    }

    /** The memory part of `wait` for a process that has exited: its kernel stack and its page tables go. */
    method Reap(kstack: nat)
      requires k.Valid() && pgdir in k.dirs && NoUserPages(k.dirs, k.tabs, pgdir)
      requires kstack in k.owner && k.owner[kstack] == Other
      modifies k
      ensures k.Valid() && k.dirs == old(k.dirs) - {pgdir}
      ensures Drops(old(k.owner) - {kstack}, k.owner, pgdir)
      ensures OthersSame(old(k.dirs), old(k.tabs), k.dirs, k.tabs, pgdir) && PagesKept(k.owner, old(k.pages), k.pages)
      ensures OthersUntouched(old(k.dirs), old(k.tabs), old(k.pages), k.dirs, k.tabs, k.pages, pgdir)
      ensures StacksKept(old(k.owner) - {kstack}, k.owner)
    {
      ghost var dirs0, tabs0, owner0, pages0 := k.dirs, k.tabs, k.owner, k.pages;
      assert DirOwned(dirs0, tabs0, owner0, pgdir);
      SpareFreed(k.dirs, k.tabs, k.owner, kstack);
      k.Kfree(kstack);
      ghost var owner1, pages1 := k.owner, k.pages;
      k.Freevm(pgdir, false);
      ReapedPages(owner1, k.owner, pages0, pages1, k.pages, pgdir, kstack);
      FreedUntouched(dirs0, tabs0, pages0, k.dirs, k.tabs, k.owner, k.pages, pgdir);
      DropsStacks(owner1, k.owner, pgdir);
    }
  }

  /**
   A page fault that loses a frame: 66 frames, of which a new address space takes 65, and a
   store to its first page.
   */
  method LosingFault() returns (r: FaultResult, proc: Process, ghost was: Owner)
    ensures r == OutOfMemory && proc.k.Valid() && Leaked(was, proc.k.owner)
  {
    var k := new Kernel(1, 67, 1024);
    var d := k.Setupkvm();
    forall vpn | PagesOf(PGSIZE) <= vpn < KERNPAGE ensures Entry(k.dirs, k.tabs, d, vpn) == Absent {
      assert KernelAt(k.dirs, k.tabs, d, k.dataPage, 4, vpn);
    }
    proc := new Process(k, d, PGSIZE);
    assert KernelAt(k.dirs, k.tabs, d, k.dataPage, 4, 0);
    was := k.owner;
    r := proc.PageFault(0, true);
  }

  lemma AboveGrown(dirs: Dirs, tabs: Tables, dirs': Dirs, tabs': Tables, d: nat, sz: nat, newsz: nat)
    requires d in dirs && sz <= newsz < KERNBASE && NothingAbove(dirs, tabs, d, sz)
    requires Grew(dirs, tabs, dirs', tabs', d, PagesOf(sz), PagesOf(newsz))
    ensures d in dirs' && NothingAbove(dirs', tabs', d, newsz)
  {
    assert GrewIn(dirs, tabs, dirs', tabs', d, PagesOf(sz), PagesOf(newsz), d);
    forall x | PagesOf(newsz) <= x < KERNPAGE ensures Entry(dirs', tabs', d, x) == Absent {
      assert GrewAt(dirs, tabs, dirs', tabs', d, PagesOf(sz), PagesOf(newsz), d, x);
    }
  }

  /** exit and then wait give back every frame of the process and its kernel stack, and no other. */
  lemma ExitThenWait(dirs: Dirs, tabs: Tables, owner: Owner, owner1: Owner, owner2: Owner, d: nat, kstack: nat, f: nat)
    requires Owned(dirs, tabs, owner) && d in dirs && kstack in owner && owner[kstack] == Other
    requires Unowns(owner, owner1, d, 0, KERNPAGE) && Drops(owner1 - {kstack}, owner2, d)
    ensures f in owner2 <==> f in owner && f != kstack && !BelongsTo(owner, f, d)
    ensures f in owner2 ==> owner2[f] == owner[f]
  {
    assert UnownsAt(owner, owner1, d, 0, KERNPAGE, f) && DropsAt(owner1 - {kstack}, owner2, d, f);
    if f in owner {
      assert Placed(dirs, tabs, owner, f);
    }
  }

  lemma ReapedPages(owner1: Owner, owner2: Owner, pages0: Pages, pages1: Pages, pages2: Pages, d: nat, kstack: nat)
    requires kstack !in owner1 && pages1 == pages0[kstack := Filled(1)] && Drops(owner1, owner2, d)
    requires PagesKept(owner2, pages1, pages2)
    ensures PagesKept(owner2, pages0, pages2)
  {
    forall f | f in owner2 && owner2[f].User? ensures PageKept(pages0, pages2, f) {
      assert DropsAt(owner1, owner2, d, f) && PageKept(pages1, pages2, f);
    }
  }

  ghost predicate Apart(dirs: Dirs, tabs: Tables, d: nat, c: nat, v: nat, w: nat)
    requires d in dirs && c in dirs && v < KERNPAGE && w < KERNPAGE
  {
    var e, f := Entry(dirs, tabs, d, v), Entry(dirs, tabs, c, w);
    e.Map? && f.Map? ==> e.frame != f.frame
  }

  /** No frame is mapped by both. */
  ghost predicate Disjoint(dirs: Dirs, tabs: Tables, d: nat, c: nat) {
    d in dirs && c in dirs && forall v, w :: 0 <= v < KERNPAGE && 0 <= w < KERNPAGE ==> Apart(dirs, tabs, d, c, v, w)
  }

  lemma CopiedDisjoint(dirs: Dirs, tabs: Tables, owner: Owner, d: nat, c: nat)
    requires Owned(dirs, tabs, owner) && d in dirs && c in dirs && d != c
    ensures Disjoint(dirs, tabs, d, c)
  {
    forall v, w | 0 <= v < KERNPAGE && 0 <= w < KERNPAGE ensures Apart(dirs, tabs, d, c, v, w) {
      var e, f := Entry(dirs, tabs, d, v), Entry(dirs, tabs, c, w);
      if e.Map? && f.Map? && e.frame == f.frame {
        OnePage(dirs, tabs, owner, d, v, c, w);
      }
    }
  }

  lemma CopiedSees(dirs0: Dirs, tabs0: Tables, pages0: Pages, dirs: Dirs, tabs: Tables, pages: Pages, d: nat, c: nat,
                   sz: nat, cells: seq<Cell>)
    requires Copied(dirs0, tabs0, pages0, dirs, tabs, pages, d, c, PagesOf(sz)) && Sees(dirs0, tabs0, pages0, d, cells)
    requires NothingAbove(dirs0, tabs0, d, sz)
    ensures Sees(dirs, tabs, pages, c, cells) && NothingAbove(dirs, tabs, c, sz)
  {
    forall vpn | 0 <= vpn < KERNPAGE ensures CellIs(dirs, tabs, pages, c, cells, vpn) {
      assert CopiedAt(dirs0, tabs0, pages0, dirs, tabs, pages, d, c, PagesOf(sz), vpn);
      assert CellIs(dirs0, tabs0, pages0, d, cells, vpn);
    }
    forall vpn | PagesOf(sz) <= vpn < KERNPAGE ensures Entry(dirs, tabs, c, vpn) == Absent {
      assert CopiedAt(dirs0, tabs0, pages0, dirs, tabs, pages, d, c, PagesOf(sz), vpn);
    }
  }

  lemma AboveShrunk(dirs: Dirs, tabs: Tables, tabs': Tables, d: nat, newsz: nat, sz: nat)
    requires d in dirs && newsz < sz < KERNBASE && NothingAbove(dirs, tabs, d, sz)
    requires Unmaps(dirs, tabs, tabs', d, PagesOf(newsz), PagesOf(sz))
    ensures NothingAbove(dirs, tabs', d, newsz) && NothingAbove(dirs, tabs', d, sz)
  {
    forall x | PagesOf(newsz) <= x < KERNPAGE ensures Entry(dirs, tabs', d, x) == Absent {
      UnmapsEntry(dirs, tabs, tabs', d, PagesOf(newsz), PagesOf(sz), d, x);
    }
  }
}
