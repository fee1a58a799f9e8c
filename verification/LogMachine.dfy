/**
 The write-ahead log as a state machine.  Every step is one lock-held section of
 an operation, or one single-block disk write of commit or of recovery, and a
 crash may happen between any two steps.
 */
module LogMachine {
  import opened Common
  import opened Blocks

  type Pid = nat
  type OpId = nat
  type Image = seq<Block>

  /** One call of `log_write`: the operation, the block and what it held. */
  datatype Write = Write(op: OpId, block: Word, data: Block)

  /** A buffer holding valid data: contents, B_DIRTY, and the sleep-lock holder. */
  datatype Entry = Entry(data: Block, dirty: bool, holder: Option<Pid>)

  type Cache = map<nat, Entry>

  /** Where the process that commits or recovers is. */
  datatype Pc =
    | Idle                  // no commit in progress
    | LogCopy(tail: nat)    // in write_log; write_head comes at tail == n
    | Install(tail: nat)    // in install_trans; clearing write_head at tail == n
    | Cleared               // header erased, about to leave commit or recovery
    | Boot                  // after a crash, before read_head

  /** History: no guard and no other part of the state depends on it. */
  datatype History = History(
    nextOp: OpId,
    epoch: OpId,                 // first operation since the last crash
    boundary: OpId,              // first operation of the current group
    pending: seq<Write>,         // log_writes of the current group
    groups: seq<seq<Write>>,     // the groups whose header reached the disk
    durable: Image)              // home image after those groups
  {
    /** The file system image that running operations see. */
    function Logical(): Image {
      Apply(durable, pending)
    }

    /** The header of the pending group reaches the disk. */
    function Commit(): History {
      History(nextOp, epoch, nextOp, [], groups + [pending], Logical())
    }

    /** A crash forgets the pending group. */
    function Forget(): History {
      History(nextOp, nextOp, nextOp, [], groups, durable)
    }
  }

  datatype State = State(
    disk: Image,
    cache: Cache,
    lh: seq<Word>,               // log.lh.block[0 .. log.lh.n]
    active: map<Pid, OpId>,      // operations between begin_op and end_op
    pc: Pc,
    recovering: bool,
    unlogged: set<nat>,          // buffers changed since their last log_write
    passed: map<Pid, nat>,       // processes past the test of log_write for a block, without the lock
    hist: History)

  datatype Step =
    | BeginOp(pid: Pid)
    | BRead(pid: Pid, b: nat)
    | Modify(pid: Pid, b: nat, data: Block)
    | LogTest(pid: Pid, b: nat)
    | LogWrite(pid: Pid, b: nat)
    | BRelse(pid: Pid, b: nat)
    | Evict(b: nat)
    | EndOp(pid: Pid)
    | WriteLogBlock
    | WriteHead
    | InstallBlock
    | ClearHead
    | Return
    | Crash
    | ReadHead

  /** The image after a list of block writes. */
  function Apply(d: Image, ws: seq<Write>): (r: Image)
    ensures |r| == |d|
  {
    if ws == [] then d
    else
      var w := ws[|ws| - 1];
      var r := Apply(d, ws[..|ws| - 1]);
      if w.block < |r| then r[w.block := w.data] else r
  }

  /** The image after a list of groups. */
  function ApplyGroups(d: Image, gs: seq<seq<Write>>): (r: Image)
    ensures |r| == |d|
  {
    if gs == [] then d else Apply(ApplyGroups(d, gs[..|gs| - 1]), gs[|gs| - 1])
  }

  /** What a reader of block b gets: the cached copy if any, else the disk. */
  function View(disk: Image, cache: Cache, b: nat): Block
    requires b < |disk|
  {
    if b in cache then cache[b].data else disk[b]
  }

  /** `bread` of a block into the cache, with its lock left as `holder`. */
  function Load(disk: Image, cache: Cache, b: nat, holder: Option<Pid>): Cache
    requires b < |disk|
  {
    cache[b := if b in cache then cache[b].(holder := holder) else Entry(disk[b], false, holder)]
  }

  /** `bwrite` then `brelse`: the cached copy is left clean and unlocked. */
  function Clean(cache: Cache, b: nat, data: Block): Cache {
    cache[b := Entry(data, false, None)]
  }

  predicate Free(cache: Cache, b: nat) {
    b in cache ==> cache[b].holder.None?
  }

  predicate HeldBy(cache: Cache, pid: Pid, b: nat) {
    b in cache && cache[b].holder == Some(pid)
  }

  /** Blocks that B_DIRTY must keep in the cache. */
  function Pinned(pc: Pc, recovering: bool, lh: seq<Word>): seq<Word> {
    match pc
    case Idle => lh
    case LogCopy(_) => lh
    case Install(t) => if recovering || t > |lh| then [] else lh[t..]
    case Cleared => []
    case Boot => []
  }

  // -------------------------------------------------------------------- steps

  /** `begin_op` past its two sleep conditions. */
  predicate CanBeginOp(s: State, pid: Pid) {
    && s.pc.Idle? && pid !in s.active
    && |s.lh| + (|s.active| + 1) * MAXOPBLOCKS <= LOGSIZE
  }

  function DoBeginOp(s: State, pid: Pid): State {
    s.(active := s.active[pid := s.hist.nextOp], hist := s.hist.(nextOp := s.hist.nextOp + 1))
  }

  /** `bread` once the buffer's sleep lock is free. */
  predicate CanBRead(s: State, b: nat) {
    !s.recovering && b < |s.disk| && Free(s.cache, b)
  }

  function DoBRead(s: State, pid: Pid, b: nat): State
    requires CanBRead(s, b)
  {
    s.(cache := Load(s.disk, s.cache, b, Some(pid)))
  }

  /** A caller inside an operation changes the data of a buffer it has locked. */
  predicate CanModify(L: Layout, s: State, pid: Pid, b: nat) {
    pid in s.active && L.Home(b) && HeldBy(s.cache, pid, b)
  }

  function DoModify(L: Layout, s: State, pid: Pid, b: nat, data: Block): State
    requires CanModify(L, s, pid, b)
  {
    s.(cache := s.cache[b := s.cache[b].(data := data)], unlogged := s.unlogged + {b})
  }

  /** The two tests of `log_write`, which come before the lock. */
  predicate CanLogTest(L: Layout, s: State, pid: Pid, b: nat) {
    CanModify(L, s, pid, b) && |s.lh| < L.Capacity()
  }

  function DoLogTest(s: State, pid: Pid, b: nat): State {
    s.(passed := s.passed[pid := b])
  }

  /** The section of `log_write` that holds the lock; it does not test again. */
  predicate CanLogWrite(L: Layout, s: State, pid: Pid, b: nat) {
    CanModify(L, s, pid, b) && pid in s.passed && s.passed[pid] == b
  }

  function DoLogWrite(L: Layout, s: State, pid: Pid, b: nat): State
    requires CanLogWrite(L, s, pid, b)
  {
    var w := Write(s.active[pid], b, s.cache[b].data);
    s.(lh := if b in s.lh then s.lh else s.lh + [b],
       cache := s.cache[b := s.cache[b].(dirty := true)],
       unlogged := s.unlogged - {b},
       passed := s.passed - {pid},
       hist := s.hist.(pending := s.hist.pending + [w]))
  }

  /** What keeps the log within its region: a block that is appended finds a slot. */
  predicate HasRoom(L: Layout, s: State, step: Step) {
    step.LogWrite? ==> step.b in s.lh || |s.lh| < L.Capacity()
  }

  /** `brelse`: whoever changed a buffer logs it first. */
  predicate CanBRelse(s: State, pid: Pid, b: nat) {
    HeldBy(s.cache, pid, b) && b !in s.unlogged
  }

  function DoBRelse(s: State, pid: Pid, b: nat): State
    requires CanBRelse(s, pid, b)
  {
    s.(cache := s.cache[b := s.cache[b].(holder := None)])
  }

  /** `bget` recycles a buffer that is neither locked nor dirty. */
  predicate CanEvict(s: State, b: nat) {
    b in s.cache && s.cache[b].holder.None? && !s.cache[b].dirty
  }

  function DoEvict(s: State, b: nat): State {
    s.(cache := s.cache - {b})
  }

  /** `end_op` by an operation that has released its buffers. */
  predicate CanEndOp(s: State, pid: Pid) {
    pid in s.active && forall b :: b in s.cache ==> !HeldBy(s.cache, pid, b)
  }

  function DoEndOp(s: State, pid: Pid): State {
    var rest := s.active - {pid};
    s.(active := rest,
       pc := if |rest| > 0 then s.pc else if |s.lh| > 0 then LogCopy(0) else Cleared)
  }

  /** One iteration of the loop of `write_log`. */
  predicate CanWriteLogBlock(L: Layout, s: State) {
    && s.pc.LogCopy? && s.pc.tail < |s.lh|
    && L.Slot(s.pc.tail) < |s.disk| && s.lh[s.pc.tail] < |s.disk|
    && Free(s.cache, L.Slot(s.pc.tail)) && Free(s.cache, s.lh[s.pc.tail])
  }

  function DoWriteLogBlock(L: Layout, s: State): State
    requires CanWriteLogBlock(L, s)
  {
    var t := s.pc.tail;
    var data := View(s.disk, s.cache, s.lh[t]);
    s.(disk := s.disk[L.Slot(t) := data], cache := Clean(s.cache, L.Slot(t), data), pc := LogCopy(t + 1))
  }

  /** The first `write_head` of `commit`: the commit point. */
  predicate CanWriteHead(L: Layout, s: State) {
    && s.pc.LogCopy? && s.pc.tail == |s.lh| <= LOGSIZE
    && L.start < |s.disk| && Free(s.cache, L.start)
  }

  function DoWriteHead(L: Layout, s: State): State
    requires CanWriteHead(L, s)
  {
    var data := EncodeHeader(View(s.disk, s.cache, L.start), s.lh);
    s.(disk := s.disk[L.start := data], cache := Clean(s.cache, L.start, data),
       pc := Install(0), hist := s.hist.Commit())
  }

  /** One iteration of the loop of `install_trans`. */
  predicate CanInstallBlock(L: Layout, s: State) {
    && s.pc.Install? && s.pc.tail < |s.lh|
    && L.Slot(s.pc.tail) < |s.disk| && s.lh[s.pc.tail] < |s.disk|
    && Free(s.cache, L.Slot(s.pc.tail)) && Free(s.cache, s.lh[s.pc.tail])
  }

  function DoInstallBlock(L: Layout, s: State): State
    requires CanInstallBlock(L, s)
  {
    var t := s.pc.tail;
    var data := View(s.disk, s.cache, L.Slot(t));
    s.(disk := s.disk[s.lh[t] := data],
       cache := Clean(Load(s.disk, s.cache, L.Slot(t), None), s.lh[t], data),
       pc := Install(t + 1))
  }

  /** `log.lh.n = 0` and the second `write_head`. */
  predicate CanClearHead(L: Layout, s: State) {
    && s.pc.Install? && s.pc.tail == |s.lh|
    && L.start < |s.disk| && Free(s.cache, L.start)
  }

  function DoClearHead(L: Layout, s: State): State
    requires CanClearHead(L, s)
  {
    var data := EncodeHeader(View(s.disk, s.cache, L.start), []);
    s.(disk := s.disk[L.start := data], cache := Clean(s.cache, L.start, data), lh := [], pc := Cleared)
  }

  /** Commit or recovery returns. */
  function DoReturn(s: State): State {
    s.(pc := Idle, recovering := false)
  }

  /** Everything but the disk is lost. */
  function DoCrash(s: State): State {
    State(s.disk, map[], [], map[], Boot, true, {}, map[], s.hist.Forget())
  }

  /** `read_head` at the start of recovery. */
  predicate CanReadHead(L: Layout, s: State) {
    s.pc.Boot? && L.start < |s.disk|
  }

  function DoReadHead(L: Layout, s: State): State
    requires CanReadHead(L, s)
  {
    s.(cache := Load(s.disk, s.cache, L.start, None),
       lh := HeaderList(View(s.disk, s.cache, L.start)), pc := Install(0))
  }

  /** A process between the test and the lock of `log_write` does nothing else. */
  predicate Acts(s: State, pid: Pid) {
    pid !in s.passed
  }

  /** When a step can be taken; a guard that fails is a sleep, a wait or a panic. */
  predicate Enabled(L: Layout, s: State, step: Step) {
    match step
    case BeginOp(pid) => Acts(s, pid) && CanBeginOp(s, pid)
    case BRead(pid, b) => Acts(s, pid) && CanBRead(s, b)
    case Modify(pid, b, data) => Acts(s, pid) && CanModify(L, s, pid, b)
    case LogTest(pid, b) => Acts(s, pid) && CanLogTest(L, s, pid, b)
    case LogWrite(pid, b) => CanLogWrite(L, s, pid, b)
    case BRelse(pid, b) => Acts(s, pid) && CanBRelse(s, pid, b)
    case Evict(b) => CanEvict(s, b)
    case EndOp(pid) => Acts(s, pid) && CanEndOp(s, pid)
    case WriteLogBlock => CanWriteLogBlock(L, s)
    case WriteHead => CanWriteHead(L, s)
    case InstallBlock => CanInstallBlock(L, s)
    case ClearHead => CanClearHead(L, s)
    case Return => s.pc.Cleared?
    case Crash => true
    case ReadHead => CanReadHead(L, s)
  }

  function Do(L: Layout, s: State, step: Step): State
    requires Enabled(L, s, step)
  {
    match step
    case BeginOp(pid) => DoBeginOp(s, pid)
    case BRead(pid, b) => DoBRead(s, pid, b)
    case Modify(pid, b, data) => DoModify(L, s, pid, b, data)
    case LogTest(pid, b) => DoLogTest(s, pid, b)
    case LogWrite(pid, b) => DoLogWrite(L, s, pid, b)
    case BRelse(pid, b) => DoBRelse(s, pid, b)
    case Evict(b) => DoEvict(s, b)
    case EndOp(pid) => DoEndOp(s, pid)
    case WriteLogBlock => DoWriteLogBlock(L, s)
    case WriteHead => DoWriteHead(L, s)
    case InstallBlock => DoInstallBlock(L, s)
    case ClearHead => DoClearHead(L, s)
    case Return => DoReturn(s)
    case Crash => DoCrash(s)
    case ReadHead => DoReadHead(L, s)
  }

  // ---------------------------------------------------------------- invariant

  /** A well-formed list of logged blocks. */
  ghost predicate LogList(L: Layout, h: seq<Word>) {
    && |h| <= L.Capacity()
    && (forall i :: 0 <= i < |h| ==> L.Home(h[i]))
    && Distinct(h)
  }

  /**
   The disk stands for the home image `image`: a block named by the header counts
   with its log copy, every other home block with what is in place.
   */
  ghost predicate Represents(L: Layout, disk: Image, image: Image) {
    && |disk| == |image| == L.total
    && disk[L.start][0] <= LOGSIZE
    && var h := HeaderList(disk[L.start]);
    && LogList(L, h)
    && (forall i :: 0 <= i < |h| ==> disk[L.Slot(i)] == image[h[i]])
    && (forall b :: L.Home(b) && b !in h ==> disk[b] == image[b])
  }

  /** Exactly the pinned blocks are dirty, and they hold the logical contents. */
  ghost predicate PinnedDirty(cache: Cache, pinned: seq<Word>, unlogged: set<nat>, logical: Image) {
    && (forall b :: b in cache ==> (cache[b].dirty <==> b in pinned))
    && (forall b :: b in pinned ==> b in cache && b < |logical|)
    && (forall b :: b in pinned && b !in unlogged ==> cache[b].data == logical[b])
  }

  /** Clean cached blocks agree with the disk unless they are being changed. */
  ghost predicate CleanAgrees(cache: Cache, disk: Image, unlogged: set<nat>) {
    && (forall b :: b in cache ==> b < |disk|)
    && (forall b :: b in cache && !cache[b].dirty && b !in unlogged ==> cache[b].data == disk[b])
  }

  /** Only an active operation that has the buffer locked may have changed it. */
  ghost predicate ChangesLocked(L: Layout, cache: Cache, unlogged: set<nat>, active: map<Pid, OpId>) {
    forall b :: b in unlogged ==>
      L.Home(b) && b in cache && cache[b].holder.Some? && cache[b].holder.value in active
  }

  ghost predicate Quiet(s: State) {
    && (!s.pc.Idle? ==> s.active == map[])
    && (s.pc.Idle? && s.active == map[] ==> s.lh == [])
    && (s.recovering ==> s.pc.Boot? || s.pc.Install? || s.pc.Cleared?)
    && (s.pc.Boot? ==> s.recovering)
  }

  /** What has reached the disk at each point of commit and recovery. */
  ghost predicate Progress(L: Layout, pc: Pc, disk: Image, lh: seq<Word>, logical: Image, durable: Image)
    requires |disk| == |logical| == |durable| == L.total && LogList(L, lh)
  {
    var h := HeaderList(disk[L.start]);
    match pc
    case Idle => h == []
    case LogCopy(t) =>
      && h == [] && t <= |lh| && lh != []
      && forall i :: 0 <= i < t ==> disk[L.Slot(i)] == logical[lh[i]]
    case Install(t) =>
      && h == lh && t <= |lh|
      && forall i :: 0 <= i < t ==> disk[lh[i]] == durable[lh[i]]
    case Cleared => h == [] && lh == []
    case Boot => lh == []
  }

  /** The pending writes touch only blocks of the in-memory header. */
  ghost predicate PendingInLog(pc: Pc, lh: seq<Word>, pending: seq<Write>) {
    && (forall i :: 0 <= i < |pending| ==> pending[i].block in lh)
    && (pc.Install? || pc.Cleared? || pc.Boot? ==> pending == [])
  }

  /** Operations that are running or pending belong to the current group. */
  ghost predicate Current(hist: History, active: map<Pid, OpId>) {
    && hist.epoch <= hist.boundary <= hist.nextOp
    && (forall p :: p in active ==> hist.boundary <= active[p] < hist.nextOp)
    && (forall p, q :: p in active && q in active && p != q ==> active[p] != active[q])
    && (forall i :: 0 <= i < |hist.pending| ==> hist.boundary <= hist.pending[i].op < hist.nextOp)
  }

  ghost predicate Inv(L: Layout, s: State) {
    var logical := s.hist.Logical();
    && Represents(L, s.disk, s.hist.durable)
    && LogList(L, s.lh)
    && PinnedDirty(s.cache, Pinned(s.pc, s.recovering, s.lh), s.unlogged, logical)
    && CleanAgrees(s.cache, s.disk, s.unlogged)
    && ChangesLocked(L, s.cache, s.unlogged, s.active)
    && Quiet(s)
    && Progress(L, s.pc, s.disk, s.lh, logical, s.hist.durable)
    && PendingInLog(s.pc, s.lh, s.hist.pending)
    && Current(s.hist, s.active)
  }
}
