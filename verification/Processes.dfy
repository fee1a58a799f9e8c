/**
 Several processes on one kernel: the instructions and sbrk calls of each, fork, exit and wait,
 in any order, against a map of processes whose pages are all in place.
 */
module Processes {
  import opened Common
  import opened PageTables
  import opened VmSteps
  import opened VmFrames
  import opened Vm
  import opened UserMemory

  // ------------------------------------------------------------- the reference

  datatype Event = Act(pid: nat, op: Op) | Fork(pid: nat, child: nat) | Exit(pid: nat) | Wait(pid: nat)

  datatype Result = Done(out: Out) | NoMemory

  /** The memory of each live process, and who has exited but is not waited for yet. */
  datatype World = World(live: map<nat, Plain>, zombies: set<nat>)

  ghost predicate AllWf(w: World) {
    forall p :: p in w.live ==> Wf(w.live[p])
  }

  /** An event that the processes there are can cause. */
  predicate Possible(live: set<nat>, zombies: set<nat>, e: Event) {
    match e
    case Act(pid, op) => pid in live && (op.Sbrk? ==> -UINT / 2 <= op.n < UINT / 2)
    case Fork(pid, child) => pid in live && child !in live && child !in zombies
    case Exit(pid) => pid in live
    case Wait(pid) => pid in zombies
  }

  /**
   What an event does. Without frames an instruction kills its process and fork has no child;
   nobody's memory changes then.
   */
  ghost predicate Follows(w: World, e: Event, w': World, r: Result)
    requires AllWf(w) && Possible(w.live.Keys, w.zombies, e)
  {
    match e
    case Act(pid, op) =>
      if r == NoMemory then w' == w && !op.Sbrk?
      else
        && pid in w'.live && Acts(w.live[pid], op, w'.live[pid], r.out)
        && w' == w.(live := w.live[pid := w'.live[pid]])
    case Fork(pid, child) =>
      if r == NoMemory then w' == w else r == Done(Value(child)) && w' == w.(live := w.live[child := w.live[pid]])
    case Exit(pid) => r == Done(Value(0)) && w' == World(w.live - {pid}, w.zombies + {pid})
    case Wait(pid) => r == Done(Value(pid)) && w' == w.(zombies := w.zombies - {pid})
  }

  // ------------------------------------------------------------------- histories

  ghost predicate Happens(worlds: seq<World>, events: seq<Event>, rs: seq<Result>, i: nat)
    requires |worlds| == |events| + 1 == |rs| + 1 && i < |events|
  {
    var w := worlds[i];
    AllWf(w) && Possible(w.live.Keys, w.zombies, events[i]) && Follows(w, events[i], worlds[i + 1], rs[i])
  }

  /** The worlds that the events lead through, with the result of each. */
  ghost predicate IsHistory(worlds: seq<World>, events: seq<Event>, rs: seq<Result>) {
    && |worlds| == |events| + 1 == |rs| + 1
    && forall i: nat {:trigger Happens(worlds, events, rs, i)} :: i < |events| ==> Happens(worlds, events, rs, i)
  }

  lemma HistorySnoc(worlds: seq<World>, events: seq<Event>, rs: seq<Result>, e: Event, w: World, r: Result)
    requires IsHistory(worlds, events, rs)
    requires var v := worlds[|events|]; AllWf(v) && Possible(v.live.Keys, v.zombies, e) && Follows(v, e, w, r)
    ensures IsHistory(worlds + [w], events + [e], rs + [r])
  {
    var worlds', events', rs' := worlds + [w], events + [e], rs + [r];
    forall i: nat | i < |events'| ensures Happens(worlds', events', rs', i) {
      if i < |events| {
        assert Happens(worlds, events, rs, i);
      }
    }
  }

  /** What process pid did, in its order. */
  ghost function OpsOf(events: seq<Event>, pid: nat): seq<Op> {
    if events == [] then []
    else
      var n := |events| - 1;
      if events[n].Act? && events[n].pid == pid then OpsOf(events[..n], pid) + [events[n].op]
      else OpsOf(events[..n], pid)
  }

  /** The results that process pid had. */
  ghost function OutsOf(events: seq<Event>, rs: seq<Result>, pid: nat): seq<Out>
    requires |events| == |rs|
  {
    if events == [] then []
    else
      var n := |events| - 1;
      if events[n].Act? && events[n].pid == pid && rs[n].Done? then OutsOf(events[..n], rs[..n], pid) + [rs[n].out]
      else OutsOf(events[..n], rs[..n], pid)
  }

  /**
   Event i is not the end of process pid, by exit or for lack of frames, nor does pid reach into
   the rest of its last page.
   */
  ghost predicate Orderly(worlds: seq<World>, events: seq<Event>, rs: seq<Result>, pid: nat, i: nat)
    requires |worlds| == |events| + 1 == |rs| + 1 && i < |events|
  {
    && events[i] != Exit(pid)
    && (events[i].Act? && events[i].pid == pid ==>
          && rs[i].Done? && pid in worlds[i].live
          && var sz := worlds[i].live[pid].sz;
             events[i].op.Sbrk? || events[i].op.va < sz || PagesOf(sz) * PGSIZE <= events[i].op.va)
  }

  ghost predicate AllOrderly(worlds: seq<World>, events: seq<Event>, rs: seq<Result>, pid: nat) {
    && |worlds| == |events| + 1 == |rs| + 1
    && forall i: nat {:trigger Orderly(worlds, events, rs, pid, i)} ::
         i < |events| ==> Orderly(worlds, events, rs, pid, i)
  }

  /**
   Whatever the other processes do in between, forks, exits and waits included, a process gets
   the results, and has the memory, of its own operations performed alone.
   */
  lemma {:induction false} AsIfAlone(worlds: seq<World>, events: seq<Event>, rs: seq<Result>, pid: nat)
    requires IsHistory(worlds, events, rs) && AllOrderly(worlds, events, rs, pid)
    requires pid in worlds[0].live && Wf(worlds[0].live[pid])
    ensures pid in worlds[|events|].live
    ensures PlainRun(worlds[0].live[pid], OpsOf(events, pid)) == (worlds[|events|].live[pid], OutsOf(events, rs, pid))
  {
    if events != [] {
      var n := |events| - 1;
      HistoryFront(worlds, events, rs, pid);
      AsIfAlone(worlds[..n + 1], events[..n], rs[..n], pid);
      assert Happens(worlds, events, rs, n) && Orderly(worlds, events, rs, pid, n);
      var ops := OpsOf(events, pid);
      if events[n].Act? && events[n].pid == pid {
        assert ops[..|ops| - 1] == OpsOf(events[..n], pid);
      }
    }
  }

  lemma HistoryBack(worlds: seq<World>, events: seq<Event>, rs: seq<Result>, n: nat)
    requires IsHistory(worlds, events, rs) && n <= |events|
    ensures IsHistory(worlds[n..], events[n..], rs[n..])
  {
    forall i: nat | i < |events| - n ensures Happens(worlds[n..], events[n..], rs[n..], i) {
      assert Happens(worlds, events, rs, n + i);
    }
  }

  /**
   A child starts from the memory that its parent had when it forked, and from there on runs as
   if alone: nothing that the parent does later reaches it.
   */
  lemma ChildAsIfAlone(worlds: seq<World>, events: seq<Event>, rs: seq<Result>, n: nat, n': nat)
    requires IsHistory(worlds, events, rs) && n < |events| && n' == n + 1
    requires events[n].Fork? && rs[n] != NoMemory
    requires AllOrderly(worlds[n'..], events[n'..], rs[n'..], events[n].child)
    ensures var f, last := events[n], worlds[|events|];
      && f.pid in worlds[n].live && f.child !in worlds[n].live && f.child in last.live && Wf(worlds[n].live[f.pid])
      && PlainRun(worlds[n].live[f.pid], OpsOf(events[n'..], f.child)) ==
           (last.live[f.child], OutsOf(events[n'..], rs[n'..], f.child))
  {
    assert Happens(worlds, events, rs, n);
    HistoryBack(worlds, events, rs, n');
    assert worlds[n'..][0] == worlds[n'] && worlds[n'..][|events| - n'] == worlds[|events|];
    AsIfAlone(worlds[n'..], events[n'..], rs[n'..], events[n].child);
  }

  lemma HistoryFront(worlds: seq<World>, events: seq<Event>, rs: seq<Result>, pid: nat)
    requires events != [] && IsHistory(worlds, events, rs) && AllOrderly(worlds, events, rs, pid)
    ensures var n := |events| - 1;
            IsHistory(worlds[..n + 1], events[..n], rs[..n]) && AllOrderly(worlds[..n + 1], events[..n], rs[..n], pid)
  {
    var n := |events| - 1;
    var worlds', events', rs' := worlds[..n + 1], events[..n], rs[..n];
    forall i: nat | i < n ensures Happens(worlds', events', rs', i) && Orderly(worlds', events', rs', pid, i) {
      assert Happens(worlds, events, rs, i) && Orderly(worlds, events, rs, pid, i);
    }
  }

  // -------------------------------------------------------------- the process table

  datatype Slot = Slot(pgdir: nat, sz: nat, kstack: nat, zombie: bool)

  type Slots = map<nat, Slot>

  ghost predicate SlotOk(dirs: Dirs, tabs: Tables, owner: Owner, s: Slot) {
    && s.pgdir in dirs && s.sz < KERNBASE && s.kstack in owner && owner[s.kstack] == Other
    && if s.zombie then NoUserPages(dirs, tabs, s.pgdir) else NothingAbove(dirs, tabs, s.pgdir, s.sz)
  }

  ghost predicate SlotShows(dirs: Dirs, tabs: Tables, pages: Pages, s: Slot, p: Plain) {
    p.sz == s.sz && Sees(dirs, tabs, pages, s.pgdir, p.cells)
  }

  ghost predicate Separate(s: Slot, t: Slot) {
    s.pgdir != t.pgdir && s.kstack != t.kstack
  }

  ghost predicate AllSeparate(slots: Slots) {
    forall p, q {:trigger Separate(slots[p], slots[q])} ::
      p in slots && q in slots && p != q ==> Separate(slots[p], slots[q])
  }

  /** Slot q of the table, and what its process sees. */
  ghost predicate SlotGood(dirs: Dirs, tabs: Tables, pages: Pages, owner: Owner, slots: Slots, w: World, q: nat)
    requires q in slots
  {
    && SlotOk(dirs, tabs, owner, slots[q])
    && (q in w.live <==> !slots[q].zombie) && (q in w.zombies <==> slots[q].zombie)
    && (q in w.live ==> SlotShows(dirs, tabs, pages, slots[q], w.live[q]))
  }

  /** The table is in order, and it shows the world w. */
  ghost predicate InOrder(dirs: Dirs, tabs: Tables, pages: Pages, owner: Owner, slots: Slots, w: World) {
    && AllSeparate(slots) && w.live.Keys + w.zombies == slots.Keys
    && forall q {:trigger SlotGood(dirs, tabs, pages, owner, slots, w, q)} ::
         q in slots ==> SlotGood(dirs, tabs, pages, owner, slots, w, q)
  }

  /** A process is as it was if its page tables, its memory and its kernel stack are. */
  lemma SlotStays(dirs: Dirs, tabs: Tables, pages: Pages, owner: Owner, dirs': Dirs, tabs': Tables, pages': Pages,
                  owner': Owner, s: Slot)
    requires SlotOk(dirs, tabs, owner, s) && Untouched(dirs, tabs, pages, dirs', tabs', pages', s.pgdir)
    requires s.kstack in owner' && owner'[s.kstack] == Other
    ensures SlotOk(dirs', tabs', owner', s)
    ensures forall p :: SlotShows(dirs, tabs, pages, s, p) ==> SlotShows(dirs', tabs', pages', s, p)
  {
    var d := s.pgdir;
    forall vpn | 0 <= vpn < KERNPAGE
      ensures Entry(dirs', tabs', d, vpn) == Entry(dirs, tabs, d, vpn)
      ensures CellAt(dirs', tabs', pages', d, vpn) == CellAt(dirs, tabs, pages, d, vpn)
    {
      assert EntrySame(dirs, tabs, dirs', tabs', d, vpn) && CellSame(dirs, tabs, pages, dirs', tabs', pages', d, vpn);
    }
    forall p | SlotShows(dirs, tabs, pages, s, p) ensures SlotShows(dirs', tabs', pages', s, p) {
      forall vpn | 0 <= vpn < KERNPAGE ensures CellIs(dirs', tabs', pages', d, p.cells, vpn) {
        assert CellIs(dirs, tabs, pages, d, p.cells, vpn);
      }
    }
  }

  /** A step of one process: every other slot of the table is still good. */
  ghost predicate OthersGood(dirs: Dirs, tabs: Tables, pages: Pages, owner: Owner, slots: Slots, w: World, pid: nat) {
    forall q {:trigger SlotGood(dirs, tabs, pages, owner, slots, w, q)} ::
      q in slots && q != pid ==> SlotGood(dirs, tabs, pages, owner, slots, w, q)
  }

  /** Directory d and frame x are not those of any process but pid. */
  ghost predicate Only(slots: Slots, pid: nat, d: nat, x: nat) {
    forall q :: q in slots && q != pid ==> slots[q].pgdir != d && slots[q].kstack != x
  }

  lemma OthersStay(dirs: Dirs, tabs: Tables, pages: Pages, owner: Owner, dirs': Dirs, tabs': Tables, pages': Pages,
                   owner': Owner,
                   slots: Slots, w: World, pid: nat, d: nat, x: nat)
    requires InOrder(dirs, tabs, pages, owner, slots, w) && Only(slots, pid, d, x)
    requires OthersUntouched(dirs, tabs, pages, dirs', tabs', pages', d) && StacksKept(owner - {x}, owner')
    ensures OthersGood(dirs', tabs', pages', owner', slots, w, pid)
  {
    forall q | q in slots && q != pid ensures SlotGood(dirs', tabs', pages', owner', slots, w, q) {
      assert SlotGood(dirs, tabs, pages, owner, slots, w, q);
      assert Untouched(dirs, tabs, pages, dirs', tabs', pages', slots[q].pgdir);
      assert RoleKept(owner - {x}, owner', slots[q].kstack);
      SlotStays(dirs, tabs, pages, owner, dirs', tabs', pages', owner', slots[q]);
    }
  }

  /** The worlds agree on every process but pid. */
  ghost predicate SameBut(w: World, w': World, pid: nat) {
    && (forall q :: q != pid ==> (q in w'.live <==> q in w.live) && (q in w'.zombies <==> q in w.zombies))
    && (forall q :: q != pid && q in w.live ==> q in w'.live && w'.live[q] == w.live[q])
  }

  /** The table after a step that leaves the slots of all but pid alone. */
  lemma Assemble(dirs: Dirs, tabs: Tables, pages: Pages, owner: Owner, slots: Slots, w: World, slots': Slots, w': World,
                 pid: nat)
    requires OthersGood(dirs, tabs, pages, owner, slots, w, pid) && AllSeparate(slots')
    requires w'.live.Keys + w'.zombies == slots'.Keys && SameBut(w, w', pid)
    requires forall q :: q in slots' && q != pid ==> q in slots && slots'[q] == slots[q]
    requires pid in slots' ==> SlotGood(dirs, tabs, pages, owner, slots', w', pid)
    ensures InOrder(dirs, tabs, pages, owner, slots', w')
  {
    forall q | q in slots' ensures SlotGood(dirs, tabs, pages, owner, slots', w', q) {
      if q != pid {
        assert SlotGood(dirs, tabs, pages, owner, slots, w, q);
      }
    }
  }

  /** There are not the frames that the event takes. */
  ghost predicate Starved(dirs: Dirs, tabs: Tables, free: nat, slots: Slots, e: Event) {
    match e
    case Act(pid, op) =>
      && pid in slots && slots[pid].pgdir in dirs && !op.Sbrk? && op.va < slots[pid].sz < KERNBASE
      && LacksPage(dirs, tabs, slots[pid].pgdir, op.va, free)
    case Fork(pid, _) =>
      && pid in slots && slots[pid].pgdir in dirs && slots[pid].sz < KERNBASE
      && free < 1 + SETUPFRAMES + FramesToCopy(dirs, tabs, slots[pid].pgdir, PagesOf(slots[pid].sz))
    case _ => false
  }

  // ------------------------------------------------------------------- the system

  class System {
    const k: Kernel
    var slots: Slots

    /** The processes, with their memory as it is, are those of world w. */
    ghost predicate Shows(w: World)
      reads this, k
    {
      k.Valid() && InOrder(k.dirs, k.tabs, k.pages, k.owner, slots, w)
    }

    /** The first process. */
    constructor (pid: nat, proc: Process, kstack: nat, ghost p: Plain)
      requires proc.Valid() && proc.Shows(p) && kstack in proc.k.owner && proc.k.owner[kstack] == Other
      ensures k == proc.k && Shows(World(map[pid := p], {}))
    {
      k := proc.k;
      slots := map[pid := Slot(proc.pgdir, proc.sz, kstack, false)];
      new;
      assert SlotGood(k.dirs, k.tabs, k.pages, k.owner, slots, World(map[pid := p], {}), pid);
    }

    /** The memory of process pid. */
    method Proc(pid: nat, ghost w: World) returns (proc: Process)
      requires Shows(w) && pid in slots && !slots[pid].zombie
      ensures fresh(proc) && proc.k == k && proc.pgdir == slots[pid].pgdir && proc.sz == slots[pid].sz
      ensures AllWf(w) && pid in w.live && proc.Valid() && proc.Shows(w.live[pid])
    {
      assert SlotGood(k.dirs, k.tabs, k.pages, k.owner, slots, w, pid);
      TableWf(k.dirs, k.tabs, k.pages, k.owner, slots, w);
      proc := new Process(k, slots[pid].pgdir, slots[pid].sz);
    }

    /** Sbrk or an instruction of process pid. */
    method DoAct(pid: nat, op: Op, ghost w: World) returns (r: Result, ghost w': World)
      requires Shows(w) && pid in slots && !slots[pid].zombie && (op.Sbrk? ==> -UINT / 2 <= op.n < UINT / 2)
      modifies this`slots, k
      ensures Shows(w') && AllWf(w) && pid in w.live && Follows(w, Act(pid, op), w', r)
      ensures r == NoMemory <==> old(Starved(k.dirs, k.tabs, |k.free|, slots, Act(pid, op)))
    {
      ghost var slots0, dirs0, tabs0, pages0, owner0 := slots, k.dirs, k.tabs, k.pages, k.owner;
      assert SlotGood(dirs0, tabs0, pages0, owner0, slots, w, pid);
      var proc := Proc(pid, w);
      ghost var q;
      var out, f;
      out, f, q := proc.Perform(op, w.live[pid]);
      slots := slots[pid := slots[pid].(sz := proc.sz)];
      w' := w.(live := w.live[pid := q]);
      r := if f == OutOfMemory then NoMemory else Done(out);
      assert f == OutOfMemory ==> w'.live == w.live;
      StacksKeptAt(owner0, k.owner, slots[pid].kstack);
      assert SlotGood(k.dirs, k.tabs, k.pages, k.owner, slots, w', pid);
      StepTable(dirs0, tabs0, pages0, owner0, k.dirs, k.tabs, k.pages, k.owner, slots0, w, pid, slots[pid], w');
    }

    /** `fork`: a kernel stack, and a copy of the memory; the stack goes back if there is no copy. */
    method DoFork(pid: nat, child: nat, ghost w: World) returns (r: Result, ghost w': World)
      requires Shows(w) && pid in slots && !slots[pid].zombie && child !in slots
      modifies this`slots, k
      ensures Shows(w') && AllWf(w) && pid in w.live && Follows(w, Fork(pid, child), w', r)
      ensures r == NoMemory <==> old(Starved(k.dirs, k.tabs, |k.free|, slots, Fork(pid, child)))
    {
      ghost var dirs0, owner0 := k.dirs, k.owner;
      TablePlaces(dirs0, k.tabs, k.pages, owner0, slots, w);
      var proc := Proc(pid, w);
      var kstack := k.Kalloc();
      if kstack == 0 {
        return NoMemory, w;
      }
      StackTaken(k.dirs, k.tabs, k.pages, owner0, slots, w, kstack);
      var c := CopyOf(proc, pid, kstack, w);
      if c == null {
        SpareFreed(k.dirs, k.tabs, k.owner, kstack);
        StackGone(k.dirs, k.tabs, k.pages, k.owner, slots, w, kstack);
        k.Kfree(kstack);
        return NoMemory, w;
      }
      r, w' := Done(Value(child)), w.(live := w.live[child := w.live[pid]]);
      ghost var slots0 := slots;
      slots := slots[child := Slot(c.pgdir, c.sz, kstack, false)];
      ChildTable(dirs0, owner0, k.dirs, k.tabs, k.pages, k.owner, slots0, w, pid, child, slots[child], w');
    }

    /** The copy of the memory, with the kernel stack of the child in hand. */
    method CopyOf(proc: Process, pid: nat, kstack: nat, ghost w: World) returns (c: Process?)
      requires Shows(w) && pid in slots && !slots[pid].zombie && kstack in k.owner && k.owner[kstack] == Other
      requires proc.k == k && proc.pgdir == slots[pid].pgdir && proc.sz == slots[pid].sz
      requires pid in w.live && proc.Valid() && proc.Shows(w.live[pid])
      modifies k
      ensures Shows(w) && kstack in k.owner && k.owner[kstack] == Other
      ensures c != null <==>
        |old(k.free)| >= SETUPFRAMES + FramesToCopy(old(k.dirs), old(k.tabs), proc.pgdir, PagesOf(proc.sz))
      ensures c != null ==> c.k == k && c.sz == proc.sz && c.pgdir !in old(k.dirs) && c.Valid() && c.Shows(w.live[pid])
    {
      ghost var dirs0, tabs0, pages0, owner0 := k.dirs, k.tabs, k.pages, k.owner;
      assert SlotGood(dirs0, tabs0, pages0, owner0, slots, w, pid);
      c := proc.Fork(w.live[pid]);
      StacksKeptAt(owner0, k.owner, slots[pid].kstack);
      StacksKeptAt(owner0, k.owner, kstack);
      assert slots == slots[pid := slots[pid]];
      assert SlotGood(k.dirs, k.tabs, k.pages, k.owner, slots, w, pid);
      StepTable(dirs0, tabs0, pages0, owner0, k.dirs, k.tabs, k.pages, k.owner, slots, w, pid, slots[pid], w);
    }

    /** `exit`: the user pages go. */
    method DoExit(pid: nat, ghost w: World) returns (r: Result, ghost w': World)
      requires Shows(w) && pid in slots && !slots[pid].zombie
      modifies this`slots, k
      ensures Shows(w') && AllWf(w) && pid in w.live && Follows(w, Exit(pid), w', r)
    {
      ghost var slots0, dirs0, tabs0, pages0, owner0 := slots, k.dirs, k.tabs, k.pages, k.owner;
      assert SlotGood(dirs0, tabs0, pages0, owner0, slots, w, pid);
      var proc := Proc(pid, w);
      proc.Exit();
      slots := slots[pid := slots[pid].(zombie := true)];
      r, w' := Done(Value(0)), World(w.live - {pid}, w.zombies + {pid});
      StacksKeptAt(owner0, k.owner, slots[pid].kstack);
      assert SlotGood(k.dirs, k.tabs, k.pages, k.owner, slots, w', pid);
      StepTable(dirs0, tabs0, pages0, owner0, k.dirs, k.tabs, k.pages, k.owner, slots0, w, pid, slots[pid], w');
    }

    /** `wait` that finds the zombie pid: kernel stack, page tables and directory go. */
    method DoWait(pid: nat, ghost w: World) returns (r: Result, ghost w': World)
      requires Shows(w) && pid in slots && slots[pid].zombie
      modifies this`slots, k
      ensures Shows(w') && AllWf(w) && pid in w.zombies && Follows(w, Wait(pid), w', r)
    {
      ghost var slots0, dirs0, tabs0, pages0, owner0 := slots, k.dirs, k.tabs, k.pages, k.owner;
      TableWf(dirs0, tabs0, pages0, owner0, slots, w);
      assert SlotGood(dirs0, tabs0, pages0, owner0, slots, w, pid);
      var s := slots[pid];
      var proc := new Process(k, s.pgdir, s.sz);
      proc.Reap(s.kstack);
      slots := slots - {pid};
      r, w' := Done(Value(pid)), w.(zombies := w.zombies - {pid});
      GoneTable(dirs0, tabs0, pages0, owner0, k.dirs, k.tabs, k.pages, k.owner, slots0, w, pid, w');
    }

    /** One event; memory runs out exactly when there are not the frames it takes. */
    method Handle(e: Event, ghost w: World) returns (r: Result, ghost w': World)
      requires Shows(w) && Possible(w.live.Keys, w.zombies, e)
      modifies this`slots, k
      ensures Shows(w') && AllWf(w) && Follows(w, e, w', r)
      ensures r == NoMemory <==> old(Starved(k.dirs, k.tabs, |k.free|, slots, e))
    {
      TableSets(k.dirs, k.tabs, k.pages, k.owner, slots, w);
      match e {
        case Act(pid, op) => r, w' := DoAct(pid, op, w);
        case Fork(pid, child) => r, w' := DoFork(pid, child, w);
        case Exit(pid) => r, w' := DoExit(pid, w);
        case Wait(pid) => r, w' := DoWait(pid, w);
      }
    }

    /**
     Any interleaving of what several processes do: results and memory are those of the map of
     processes with all their pages in place, up to the first event that cannot happen.
     */
    method Run(events: seq<Event>, ghost w: World) returns (rs: seq<Result>, ghost worlds: seq<World>)
      requires Shows(w)
      modifies this`slots, k
      ensures |rs| <= |events| && IsHistory(worlds, events[..|rs|], rs) && worlds[0] == w && Shows(worlds[|rs|])
      ensures |rs| < |events| ==> !Possible(worlds[|rs|].live.Keys, worlds[|rs|].zombies, events[|rs|])
    {
      rs, worlds := [], [w];
      while |rs| < |events|
        invariant |rs| <= |events| && IsHistory(worlds, events[..|rs|], rs) && worlds[0] == w && Shows(worlds[|rs|])
        decreases |events| - |rs|
      {
        var i := |rs|;
        ghost var v := worlds[i];
        TableSets(k.dirs, k.tabs, k.pages, k.owner, slots, v);
        var live, zombies := (set p | p in slots && !slots[p].zombie), (set p | p in slots && slots[p].zombie);
        if !Possible(live, zombies, events[i]) {
          return;
        }
        var r;
        ghost var v';
        r, v' := Handle(events[i], v);
        HistorySnoc(worlds, events[..i], rs, events[i], v', r);
        assert events[..i + 1] == events[..i] + [events[i]];
        rs, worlds := rs + [r], worlds + [v'];
      }
    }
  }

  /** The live processes and the zombies of the world are those of the table. */
  lemma TableSets(dirs: Dirs, tabs: Tables, pages: Pages, owner: Owner, slots: Slots, w: World)
    requires InOrder(dirs, tabs, pages, owner, slots, w)
    ensures w.live.Keys == (set p | p in slots && !slots[p].zombie)
    ensures w.zombies == (set p | p in slots && slots[p].zombie)
  {
    forall p | p in slots ensures (p in w.live <==> !slots[p].zombie) && (p in w.zombies <==> slots[p].zombie) {
      assert SlotGood(dirs, tabs, pages, owner, slots, w, p);
    }
  }

  lemma TablePlaces(dirs: Dirs, tabs: Tables, pages: Pages, owner: Owner, slots: Slots, w: World)
    requires InOrder(dirs, tabs, pages, owner, slots, w)
    ensures forall q :: q in slots ==> slots[q].pgdir in dirs && slots[q].kstack in owner
  {
    forall q | q in slots ensures slots[q].pgdir in dirs && slots[q].kstack in owner {
      assert SlotGood(dirs, tabs, pages, owner, slots, w, q);
    }
  }

  /** A zombie that has been waited for. */
  lemma GoneTable(dirs: Dirs, tabs: Tables, pages: Pages, owner: Owner, dirs': Dirs, tabs': Tables, pages': Pages,
                  owner': Owner,
                  slots: Slots, w: World, pid: nat, w': World)
    requires InOrder(dirs, tabs, pages, owner, slots, w) && pid in slots && slots[pid].zombie
    requires w' == w.(zombies := w.zombies - {pid})
    requires OthersUntouched(dirs, tabs, pages, dirs', tabs', pages', slots[pid].pgdir)
    requires StacksKept(owner - {slots[pid].kstack}, owner')
    ensures InOrder(dirs', tabs', pages', owner', slots - {pid}, w')
  {
    var s, slots' := slots[pid], slots - {pid};
    assert SlotGood(dirs, tabs, pages, owner, slots, w, pid);
    forall q | q in slots && q != pid ensures slots[q].pgdir != s.pgdir && slots[q].kstack != s.kstack {
      assert Separate(slots[q], slots[pid]);
    }
    forall p, q | p in slots' && q in slots' && p != q ensures Separate(slots'[p], slots'[q]) {
      assert Separate(slots[p], slots[q]);
    }
    OthersStay(dirs, tabs, pages, owner, dirs', tabs', pages', owner', slots, w, pid, s.pgdir, s.kstack);
    Assemble(dirs', tabs', pages', owner', slots, w, slots', w', pid);
  }

  lemma TableWf(dirs: Dirs, tabs: Tables, pages: Pages, owner: Owner, slots: Slots, w: World)
    requires InOrder(dirs, tabs, pages, owner, slots, w)
    ensures AllWf(w)
  {
    forall p | p in w.live ensures Wf(w.live[p]) {
      assert SlotGood(dirs, tabs, pages, owner, slots, w, p);
    }
  }

  lemma StacksKeptAt(owner: Owner, owner': Owner, x: nat)
    requires StacksKept(owner, owner') && x in owner && owner[x] == Other
    ensures x in owner' && owner'[x] == Other
  {
    assert RoleKept(owner, owner', x);
  }

  lemma StacksKeptBut(owner: Owner, owner': Owner, x: nat)
    requires StacksKept(owner, owner')
    ensures StacksKept(owner - {x}, owner')
  {
    forall f | f in owner - {x} && (owner - {x})[f] == Other ensures RoleKept(owner - {x}, owner', f) {
      assert RoleKept(owner, owner', f);
    }
  }

  lemma SeparateStill(slots: Slots, pid: nat, s: Slot)
    requires AllSeparate(slots) && forall q :: q in slots && q != pid ==> Separate(slots[q], s)
    ensures AllSeparate(slots[pid := s])
  {
    var slots' := slots[pid := s];
    forall p, q | p in slots' && q in slots' && p != q ensures Separate(slots'[p], slots'[q]) {
      if p == pid {
        assert Separate(slots[q], s);
      } else if q == pid {
        assert Separate(slots[p], s);
      } else {
        assert Separate(slots[p], slots[q]);
      }
    }
  }

  /** Process pid has changed, in its own directory and with its own kernel stack. */
  lemma StepTable(dirs: Dirs, tabs: Tables, pages: Pages, owner: Owner, dirs': Dirs, tabs': Tables, pages': Pages,
                  owner': Owner,
                  slots: Slots, w: World, pid: nat, s: Slot, w': World)
    requires InOrder(dirs, tabs, pages, owner, slots, w) && pid in slots
    requires s.pgdir == slots[pid].pgdir && s.kstack == slots[pid].kstack
    requires SameBut(w, w', pid) && w'.live.Keys + w'.zombies == slots.Keys
    requires OthersUntouched(dirs, tabs, pages, dirs', tabs', pages', s.pgdir) && StacksKept(owner, owner')
    requires SlotGood(dirs', tabs', pages', owner', slots[pid := s], w', pid)
    ensures InOrder(dirs', tabs', pages', owner', slots[pid := s], w')
  {
    forall q | q in slots && q != pid ensures Separate(slots[q], s) {
      assert Separate(slots[q], slots[pid]);
    }
    StacksKeptBut(owner, owner', s.kstack);
    OthersStay(dirs, tabs, pages, owner, dirs', tabs', pages', owner', slots, w, pid, s.pgdir, s.kstack);
    SeparateStill(slots, pid, s);
    Assemble(dirs', tabs', pages', owner', slots, w, slots[pid := s], w', pid);
  }

  lemma StackTaken(dirs: Dirs, tabs: Tables, pages: Pages, owner: Owner, slots: Slots, w: World, x: nat)
    requires InOrder(dirs, tabs, pages, owner, slots, w) && x !in owner
    ensures InOrder(dirs, tabs, pages, owner[x := Other], slots, w)
  {
    forall q | q in slots ensures SlotGood(dirs, tabs, pages, owner[x := Other], slots, w, q) {
      assert SlotGood(dirs, tabs, pages, owner, slots, w, q);
    }
  }

  /** A frame that no process refers to is freed. */
  lemma StackGone(dirs: Dirs, tabs: Tables, pages: Pages, owner: Owner, slots: Slots, w: World, x: nat)
    requires InOrder(dirs, tabs, pages, owner, slots, w) && Owned(dirs, tabs, owner - {x}) && x in owner
    requires owner[x] == Other
    requires forall q :: q in slots ==> slots[q].kstack != x
    ensures InOrder(dirs, tabs, pages[x := Filled(1)], owner - {x}, slots, w)
  {
    var pages', owner' := pages[x := Filled(1)], owner - {x};
    UntouchedRefl(dirs, tabs, pages, x);
    FreedUntouched(dirs, tabs, pages, dirs, tabs, owner', pages', x);
    forall q | q in slots ensures SlotGood(dirs, tabs, pages', owner', slots, w, q) {
      assert SlotGood(dirs, tabs, pages, owner, slots, w, q);
      assert DirOwned(dirs, tabs, owner', slots[q].pgdir);
      assert Untouched(dirs, tabs, pages, dirs, tabs, pages', slots[q].pgdir);
      SlotStays(dirs, tabs, pages, owner, dirs, tabs, pages', owner', slots[q]);
    }
  }

  /** A child with a directory and a kernel stack that nobody had. */
  lemma ChildTable(dirs0: Dirs, owner0: Owner, dirs: Dirs, tabs: Tables, pages: Pages, owner: Owner,
                   slots: Slots, w: World, pid: nat, child: nat, s: Slot, w': World)
    requires InOrder(dirs, tabs, pages, owner, slots, w) && pid in w.live && child !in slots
    requires forall q :: q in slots ==> slots[q].pgdir in dirs0 && slots[q].kstack in owner0
    requires s.pgdir !in dirs0 && s.kstack !in owner0 && !s.zombie
    requires SlotOk(dirs, tabs, owner, s) && SlotShows(dirs, tabs, pages, s, w.live[pid])
    requires w' == w.(live := w.live[child := w.live[pid]])
    ensures InOrder(dirs, tabs, pages, owner, slots[child := s], w')
  {
    SeparateStill(slots, child, s);
    assert SlotGood(dirs, tabs, pages, owner, slots[child := s], w', child);
    Assemble(dirs, tabs, pages, owner, slots, w, slots[child := s], w', child);
  }
}
