/**
 The buffer cache (bio.c) over the synchronous disk (memide.c).

 NBUF buffers, threaded on a ring in most-recently-released order through a head
 element.  The abstract value is the map from block number to cached entry that the
 log machine works with.
 */
module BufferCache {
  import opened Common
  import opened Blocks
  import opened Counting
  import opened Ring
  import opened LogMachine

  const ROOTDEV := 1
  const HEAD := NBUF

  /** `refcnt` counts the holder of the sleep lock and those waiting for it. */
  datatype Buf = Buf(dev: nat, blockno: nat, valid: bool, dirty: bool, refcnt: nat, holder: Option<Pid>, data: Block)

  predicate Holds(buf: Buf, b: nat) {
    buf.dev == ROOTDEV && buf.blockno == b
  }

  predicate Recyclable(buf: Buf) {
    buf.refcnt == 0 && !buf.dirty
  }

  function ToEntry(buf: Buf): Entry {
    Entry(buf.data, buf.dirty, buf.holder)
  }

  /** `where` locates the buffer of each cached block; buffers never used have device 0. */
  ghost predicate WellKeyed(bufs: seq<Buf>, where: map<nat, nat>, blocks: nat) {
    && (forall b :: b in where ==> where[b] < |bufs| && Holds(bufs[where[b]], b) && b < blocks)
    && (forall i :: 0 <= i < |bufs| && bufs[i].dev == ROOTDEV ==>
          bufs[i].blockno in where && where[bufs[i].blockno] == i)
    && (forall i :: 0 <= i < |bufs| ==> bufs[i].dev == ROOTDEV || bufs[i].dev == 0)
  }

  predicate Proper(buf: Buf) {
    && (buf.holder.Some? ==> buf.refcnt > 0) && (buf.dev == ROOTDEV ==> buf.valid) && (buf.dev == 0 ==> Recyclable(buf))
  }

  ghost predicate WellUsed(bufs: seq<Buf>) {
    forall i :: 0 <= i < |bufs| ==> Proper(bufs[i])
  }

  /** The cached blocks. */
  ghost function Contents(bufs: seq<Buf>, where: map<nat, nat>, blocks: nat): Cache
    requires WellKeyed(bufs, where, blocks)
  {
    map b | b in where :: ToEntry(bufs[where[b]])
  }

  /** No block has two buffers. */
  lemma OneBufferPerBlock(bufs: seq<Buf>, where: map<nat, nat>, blocks: nat, i: nat, j: nat)
    requires WellKeyed(bufs, where, blocks) && i < |bufs| && j < |bufs|
    requires bufs[i].dev == bufs[j].dev == ROOTDEV && bufs[i].blockno == bufs[j].blockno
    ensures i == j
  {
  }

  /** Changing a buffer without changing its block. */
  lemma ContentsUpdate(bufs: seq<Buf>, where: map<nat, nat>, blocks: nat, i: nat, buf: Buf)
    requires WellKeyed(bufs, where, blocks) && i < |bufs| && bufs[i].dev == ROOTDEV && Holds(buf, bufs[i].blockno)
    ensures WellKeyed(bufs[i := buf], where, blocks)
    ensures Contents(bufs[i := buf], where, blocks) == Contents(bufs, where, blocks)[buf.blockno := ToEntry(buf)]
  {
  }

  /** Where buffers are once buffer i is given to block b. */
  ghost function Recycled(bufs: seq<Buf>, where: map<nat, nat>, i: nat, b: nat): map<nat, nat>
    requires i < |bufs|
  {
    (if bufs[i].dev == ROOTDEV then where - {bufs[i].blockno} else where)[b := i]
  }

  /** Giving a buffer to a block that has none evicts the block it held. */
  lemma ContentsRecycle(bufs: seq<Buf>, where: map<nat, nat>, blocks: nat, i: nat, buf: Buf)
    requires WellKeyed(bufs, where, blocks) && i < |bufs| && buf.dev == ROOTDEV && buf.blockno < blocks
    requires buf.blockno !in where
    ensures var where' := Recycled(bufs, where, i, buf.blockno);
            && WellKeyed(bufs[i := buf], where', blocks)
            && var was := Contents(bufs, where, blocks);
               var rest := if bufs[i].dev == ROOTDEV then was - {bufs[i].blockno} else was;
               Contents(bufs[i := buf], where', blocks) == rest[buf.blockno := ToEntry(buf)]
  {
  }

  function Locked(buf: Buf, disk: Image, pid: Pid): Buf
    requires buf.blockno < |disk|
  {
    if buf.valid then buf.(holder := Some(pid)) else buf.(holder := Some(pid), data := disk[buf.blockno], valid := true)
  }

  /** The buffers after `bget` of block b has found or recycled buffer i. */
  ghost function Got(bufs: seq<Buf>, where: map<nat, nat>, i: nat, b: nat): seq<Buf>
    requires i < |bufs|
  {
    bufs[i := if b in where then bufs[i].(refcnt := bufs[i].refcnt + 1)
              else Buf(ROOTDEV, b, false, false, 1, None, bufs[i].data)]
  }

  /** What `bread` leaves in the cache, and the block it has recycled. */
  lemma ReadDone(bufs: seq<Buf>, where: map<nat, nat>, disk: Image, bufs': seq<Buf>, where': map<nat, nat>, i: nat,
                 b: nat, pid: Pid)
    returns (evicted: Option<nat>)
    requires WellKeyed(bufs, where, |disk|) && WellUsed(bufs) && i < |bufs| == |bufs'| && b < |disk|
    requires if b in where then where[b] == i else Recyclable(bufs[i])
    requires where' == if b in where then where else Recycled(bufs, where, i, b)
    requires var got := Got(bufs, where, i, b)[i];
             bufs' == bufs[i := if got.holder.Some? then got else Locked(got, disk, pid)]
    ensures WellKeyed(bufs', where', |disk|) && WellUsed(bufs')
    ensures var was, now := Contents(bufs, where, |disk|), Contents(bufs', where', |disk|);
            now == if !Free(was, b) then was
                   else Load(disk, if evicted.Some? then was - {evicted.value} else was, b, Some(pid))
    ensures b in where ==> evicted.None?
    ensures evicted.Some? ==> evicted.value in where && evicted.value != b && where[evicted.value] == i && b !in where
    ensures Holds(bufs'[i], b) && b in where' && where'[b] == i
    ensures bufs'[i].refcnt == if b in where then bufs[i].refcnt + 1 else 1
  {
    evicted := None;
    if b in where {
      ContentsUpdate(bufs, where, |disk|, i, bufs'[i]);
    } else {
      ContentsRecycle(bufs, where, |disk|, i, bufs'[i]);
      if bufs[i].dev == ROOTDEV {
        evicted := Some(bufs[i].blockno);
      }
    }
  }

  /** The list is in strictly decreasing order of release time. */
  ghost predicate Aged(order: seq<int>, stamp: seq<nat>, clock: nat) {
    && (forall i :: 0 <= i < |order| ==> 0 <= order[i] < |stamp| && stamp[order[i]] < clock)
    && (forall i, j :: 0 <= i < j < |order| ==> stamp[order[i]] > stamp[order[j]])
  }

  /** `brelse` of the last reference: the buffer becomes the most recent one. */
  lemma MoveToFrontAged(order: seq<int>, stamp: seq<nat>, clock: nat, k: nat)
    requires Aged(order, stamp, clock) && k < |order|
    ensures Aged([order[k]] + Remove(order, k), stamp[order[k] := clock], clock + 1)
  {
  }

  /** The buffers, and only they, are on the list. */
  ghost predicate Complete(order: seq<int>) {
    && (forall i :: 0 <= i < NBUF ==> i in order)
    && (forall k :: 0 <= k < |order| ==> 0 <= order[k] < NBUF)
  }

  ghost function PositionOf(order: seq<int>, i: int): (k: nat)
    requires Complete(order) && 0 <= i < NBUF
    ensures k < |order| && order[k] == i
  {
    assert i in order;
    var k :| 0 <= k < |order| && order[k] == i;
    k
  }

  lemma MoveToFrontComplete(order: seq<int>, k: nat)
    requires Complete(order) && k < |order|
    ensures Complete([order[k]] + Remove(order, k))
  {
    forall i | 0 <= i < NBUF ensures i in [order[k]] + Remove(order, k) {
      var j := PositionOf(order, i);
      if j < k {
        assert Remove(order, k)[j] == i;
      } else if j > k {
        assert Remove(order, k)[j - 1] == i;
      }
    }
  }

  /** The links after unlinking b, and after linking b behind the head. */
  lemma LinkFirst(next: seq<int>, prev: seq<int>, order: seq<int>, b: int)
    requires |next| == NBUF + 1 && IsRing(next, prev, [HEAD] + order) && 0 <= b < NBUF && b !in order
    ensures 0 <= next[HEAD] < |next|
    ensures IsRing(next[b := next[HEAD]][HEAD := b], prev[b := HEAD][next[HEAD] := b], [HEAD] + ([b] + order))
  {
    InsertKeepsRing(next, prev, [HEAD] + order, 0, b);
    assert Insert([HEAD] + order, 0, b) == [HEAD] + ([b] + order);
  }

  lemma Unlink(next: seq<int>, prev: seq<int>, order: seq<int>, k: nat)
    requires |next| == NBUF + 1 && IsRing(next, prev, [HEAD] + order) && k < |order|
    ensures var b := order[k];
            && 0 <= b < NBUF && 0 <= next[b] < |next| && 0 <= prev[b] < |next| && b !in Remove(order, k)
            && IsRing(next[prev[b] := next[b]], prev[next[b] := prev[b]], [HEAD] + Remove(order, k))
  {
    var r := [HEAD] + order;
    assert r[k + 1] == order[k] && r[0] == HEAD;
    RemoveKeepsRing(next, prev, r, k + 1);
    assert Remove(r, k + 1) == [HEAD] + Remove(order, k);
  }

  /** Walking the ring from the head visits the list in order, and backwards in reverse. */
  lemma Walk(next: seq<int>, prev: seq<int>, order: seq<int>, k: nat)
    requires |next| == NBUF + 1 && IsRing(next, prev, [HEAD] + order) && Complete(order) && k <= |order|
    ensures next[if k == 0 then HEAD else order[k - 1]] == if k < |order| then order[k] else HEAD
    ensures prev[if k == |order| then HEAD else order[k]] == if k > 0 then order[k - 1] else HEAD
  {
    var r := [HEAD] + order;
    assert next[r[k]] == r[After(k, |r|)];
    var j := After(k, |r|);
    assert prev[r[j]] == r[Before(j, |r|)];
    assert k < |order| ==> r[k + 1] == order[k] && r[0] == HEAD;
  }

  class BCache {
    var bufs: seq<Buf>
    var next: seq<int>
    var prev: seq<int>
    var disk: Image
    ghost var where: map<nat, nat>
    ghost var order: seq<int>     // the ring without its head, most recent first
    ghost var stamp: seq<nat>     // when each buffer was last released
    ghost var clock: nat

    /** The list. */
    ghost predicate Linked()
      reads this`next, this`prev, this`order, this`stamp, this`clock
    {
      && |stamp| == NBUF && |next| == NBUF + 1
      && IsRing(next, prev, [HEAD] + order) && Complete(order) && Aged(order, stamp, clock)
    }

    ghost predicate Valid()
      reads this
    {
      |bufs| == NBUF && Linked() && WellKeyed(bufs, where, |disk|) && WellUsed(bufs)
    }

    ghost function Abs(): Cache
      reads this
      requires Valid()
    {
      Contents(bufs, where, |disk|)
    }

    /** `binit` */
    constructor (d: Image)
      ensures Valid() && disk == d && Abs() == map[]
    {
      bufs := seq(NBUF, _ => UNUSED);
      next := seq(NBUF + 1, _ => HEAD);
      prev := seq(NBUF + 1, _ => HEAD);
      disk := d;
      where, order, stamp, clock := map[], [], seq(NBUF, i => i), NBUF;
      new;
      var b := 0;
      while b < NBUF
        invariant 0 <= b <= NBUF && |next| == NBUF + 1
        invariant |bufs| == |stamp| == NBUF
        invariant forall i :: 0 <= i < NBUF ==> bufs[i] == UNUSED
        invariant disk == d && where == map[] && clock == NBUF
        invariant forall i :: 0 <= i < NBUF ==> stamp[i] == i
        invariant |order| == b && forall i :: 0 <= i < b ==> order[i] == b - 1 - i
        invariant IsRing(next, prev, [HEAD] + order)
      {
        LinkFirst(next, prev, order, b);
        var first := next[HEAD];
        next := next[b := first][HEAD := b];
        prev := prev[b := HEAD][first := b];
        order := [b] + order;
        b := b + 1;
      }
      forall i | 0 <= i < NBUF ensures i in order {
        assert order[NBUF - 1 - i] == i;
      }
    }

    /** First loop of `bget`: is the block cached? */
    method Find(b: nat) returns (r: Option<nat>)
      requires Valid()
      ensures r == if b in where then Some(where[b]) else None
    {
      Walk(next, prev, order, 0);
      var i := next[HEAD];
      ghost var k := 0;
      while i != HEAD
        invariant 0 <= k <= |order| && i == if k < |order| then order[k] else HEAD
        invariant forall j :: 0 <= j < k ==> !Holds(bufs[order[j]], b)
        decreases |order| - k
      {
        if Holds(bufs[i], b) {
          return Some(i);
        }
        Walk(next, prev, order, k + 1);
        i := next[i];
        k := k + 1;
      }
      forall j | 0 <= j < NBUF ensures !Holds(bufs[j], b) {
        var m := PositionOf(order, j);
      }
      return None;
    }

    /** Second loop of `bget`: the least recently released buffer that can be recycled. */
    method Victim() returns (r: Option<nat>)
      requires Valid()
      ensures r.None? <==> forall i :: 0 <= i < NBUF ==> !Recyclable(bufs[i])
      ensures r.Some? ==>
        && r.value < NBUF && Recyclable(bufs[r.value])
        && forall i :: 0 <= i < NBUF && Recyclable(bufs[i]) ==> stamp[r.value] <= stamp[i]
    {
      Walk(next, prev, order, |order|);
      var i := prev[HEAD];
      ghost var k := |order|;
      while i != HEAD
        invariant 0 <= k <= |order| && i == if k > 0 then order[k - 1] else HEAD
        invariant forall j :: k <= j < |order| ==> !Recyclable(bufs[order[j]])
        decreases k
      {
        if Recyclable(bufs[i]) {
          forall j | 0 <= j < NBUF && Recyclable(bufs[j]) ensures stamp[i] <= stamp[j] {
            var m := PositionOf(order, j);
          }
          return Some(i);
        }
        Walk(next, prev, order, k - 1);
        i := prev[i];
        k := k - 1;
      }
      forall j | 0 <= j < NBUF ensures !Recyclable(bufs[j]) {
        var m := PositionOf(order, j);
      }
      return None;
    }

    /**
     `bget`: the buffer of the block if there is one, else the least recently released
     buffer that is neither referenced nor dirty, else the panic "no buffers".
     */
    method Bget(b: nat) returns (r: Option<nat>)
      requires Valid() && b < |disk|
      modifies this`bufs, this`where
      ensures r.None? <==> b !in old(where) && forall i :: 0 <= i < NBUF ==> !Recyclable(old(bufs[i]))
      ensures r.None? ==> bufs == old(bufs) && where == old(where)
      ensures r.Some? ==>
        && r.value < NBUF && bufs == Got(old(bufs), old(where), r.value, b)
        && where == if b in old(where) then old(where) else Recycled(old(bufs), old(where), r.value, b)
      ensures b in old(where) ==> r == Some(old(where)[b])
      ensures r.Some? && b !in old(where) ==>
        && Recyclable(old(bufs[r.value]))
        && (forall i :: 0 <= i < NBUF && Recyclable(old(bufs[i])) ==> stamp[r.value] <= stamp[i])
    {
      r := Find(b);
      if r.Some? {
        var i := r.value;
        bufs := bufs[i := bufs[i].(refcnt := bufs[i].refcnt + 1)];
        return;
      }
      r := Victim();
      if r.Some? {
        var i := r.value;
        where := Recycled(bufs, where, i, b);
        bufs := bufs[i := Buf(ROOTDEV, b, false, false, 1, None, bufs[i].data)];
      }
    }

    /**
     `bread`: None is the panic "no buffers"; `evicted` is the block recycled. If another process
     has the buffer locked, `waits` and only a reference is taken; `Acquire` is the rest then.
     */
    method Bread(pid: Pid, b: nat) returns (r: Option<nat>, waits: bool, ghost evicted: Option<nat>)
      requires Valid() && b < |disk|
      modifies this`bufs, this`where
      ensures Valid()
      ensures r.None? <==> b !in old(Abs()) && forall i :: 0 <= i < NBUF ==> !Recyclable(old(bufs[i]))
      ensures r.None? ==> bufs == old(bufs) && where == old(where)
      ensures r.Some? ==> r.value < NBUF && Holds(bufs[r.value], b) && b in where && where[b] == r.value
      ensures b in old(Abs()) ==> evicted.None?
      ensures evicted.Some? ==>
        && evicted.value in old(Abs()) && evicted.value != b
        && Recyclable(old(bufs[where[evicted.value]]))
      ensures waits <==> !Free(old(Abs()), b)
      ensures waits ==> r.Some? && Abs() == old(Abs())
      ensures r.Some? && !waits ==>
        Abs() == Load(disk, if evicted.Some? then old(Abs()) - {evicted.value} else old(Abs()), b, Some(pid))
      ensures r.Some? ==>
        && (forall i :: 0 <= i < NBUF && i != r.value ==> bufs[i] == old(bufs[i]))
        && bufs[r.value].refcnt == (if b in old(Abs()) then old(bufs[r.value].refcnt) + 1 else 1)
        && ToEntry(bufs[r.value]) == Abs()[b]
      ensures r.Some? && !waits ==>
        && bufs[r.value].holder == Some(pid)
        && bufs[r.value].data == (if b in old(Abs()) then old(Abs())[b].data else disk[b])
    {
      evicted, waits := None, false;
      ghost var bufs0, where0 := bufs, where;
      r := Bget(b);
      if r.Some? {
        waits, evicted := LockAndRead(pid, r.value, b, bufs0, where0);
      }
    }

    /** `bread` after `bget`. */
    method LockAndRead(pid: Pid, i: nat, b: nat, ghost bufs0: seq<Buf>, ghost where0: map<nat, nat>)
      returns (waits: bool, ghost evicted: Option<nat>)
      requires |bufs0| == |bufs| && WellKeyed(bufs0, where0, |disk|) && WellUsed(bufs0) && i < |bufs| && b < |disk|
      requires if b in where0 then where0[b] == i else Recyclable(bufs0[i])
      requires bufs == Got(bufs0, where0, i, b)
      requires where == if b in where0 then where0 else Recycled(bufs0, where0, i, b)
      modifies this`bufs
      ensures |bufs| == |bufs0| && WellKeyed(bufs, where, |disk|) && WellUsed(bufs)
      ensures Holds(bufs[i], b) && b in where && where[b] == i
      ensures b in where0 ==> evicted.None?
      ensures evicted.Some? ==>
        evicted.value in where0 && evicted.value != b && where0[evicted.value] == i && Recyclable(bufs0[i])
      ensures waits <==> !Free(Contents(bufs0, where0, |disk|), b)
      ensures var was := Contents(bufs0, where0, |disk|);
              Contents(bufs, where, |disk|) ==
                if waits then was
                else Load(disk, if evicted.Some? then was - {evicted.value} else was, b, Some(pid))
      ensures forall j :: 0 <= j < |bufs| && j != i ==> bufs[j] == bufs0[j]
      ensures bufs[i].refcnt == if b in where0 then bufs0[i].refcnt + 1 else 1
    {
      waits := TryLock(pid, i);
      evicted := ReadDone(bufs0, where0, disk, bufs, where, i, b, pid);
    }

    /** acquiresleep of a buffer that is not locked, and `iderw` if it has no data yet. */
    method TryLock(pid: Pid, i: nat) returns (waits: bool)
      requires i < |bufs| && bufs[i].blockno < |disk|
      modifies this`bufs
      ensures waits == old(bufs[i].holder.Some?)
      ensures bufs == old(bufs)[i := if waits then old(bufs[i]) else Locked(old(bufs[i]), disk, pid)]
    {
      waits := bufs[i].holder.Some?;
      if waits {
        return;
      }
      bufs := bufs[i := bufs[i].(holder := Some(pid))];
      if !bufs[i].valid {
        bufs := bufs[i := bufs[i].(data := disk[bufs[i].blockno], valid := true)];
      }
    }

    /** The end of `bread` for a process that has waited: the sleep lock is free, and the data is there. */
    method Acquire(pid: Pid, i: nat)
      requires Valid() && i < NBUF && bufs[i].dev == ROOTDEV && bufs[i].refcnt > 0 && bufs[i].holder.None?
      modifies this`bufs
      ensures Valid() && bufs == old(bufs)[i := old(bufs[i]).(holder := Some(pid))]
      ensures Abs() == Load(disk, old(Abs()), bufs[i].blockno, Some(pid))
    {
      ContentsUpdate(bufs, where, |disk|, i, bufs[i].(holder := Some(pid)));
      bufs := bufs[i := bufs[i].(holder := Some(pid))];
    }

    /** The holder changes the data of its buffer. */
    method Store(i: nat, data: Block)
      requires Valid() && i < NBUF && bufs[i].dev == ROOTDEV && bufs[i].holder.Some?
      modifies this`bufs
      ensures Valid() && bufs == old(bufs)[i := old(bufs[i]).(data := data)]
      ensures Abs() == old(Abs())[bufs[i].blockno := old(Abs()[bufs[i].blockno]).(data := data)]
    {
      ContentsUpdate(bufs, where, |disk|, i, bufs[i].(data := data));
      bufs := bufs[i := bufs[i].(data := data)];
    }

    /** `b->flags |= B_DIRTY` of log_write. */
    method Pin(i: nat)
      requires Valid() && i < NBUF && bufs[i].dev == ROOTDEV
      modifies this`bufs
      ensures Valid() && bufs == old(bufs)[i := old(bufs[i]).(dirty := true)]
      ensures Abs() == old(Abs())[bufs[i].blockno := old(Abs()[bufs[i].blockno]).(dirty := true)]
    {
      ContentsUpdate(bufs, where, |disk|, i, bufs[i].(dirty := true));
      bufs := bufs[i := bufs[i].(dirty := true)];
    }

    /** `bwrite`: B_DIRTY is set, and `iderw` writes the block and clears it. */
    method Bwrite(i: nat)
      requires Valid() && i < NBUF && bufs[i].dev == ROOTDEV && bufs[i].holder.Some?
      modifies this`bufs, this`disk
      ensures Valid() && bufs == old(bufs)[i := old(bufs[i]).(dirty := false)]
      ensures disk == old(disk)[bufs[i].blockno := bufs[i].data]
      ensures Abs() == old(Abs())[bufs[i].blockno := old(Abs()[bufs[i].blockno]).(dirty := false)]
    {
      ContentsUpdate(bufs, where, |disk|, i, bufs[i].(dirty := false));
      bufs := bufs[i := bufs[i].(dirty := true)];
      disk := disk[bufs[i].blockno := bufs[i].data];
      bufs := bufs[i := bufs[i].(dirty := false)];
    }

    /** The six link updates of `brelse`. */
    method MoveToFront(i: nat)
      requires Valid() && i < NBUF
      modifies this`next, this`prev, this`order, this`stamp, this`clock
      ensures Valid()
      ensures order == [i as int] + Remove(old(order), PositionOf(old(order), i))
      ensures stamp == old(stamp)[i := old(clock)]
    {
      ghost var k := PositionOf(order, i);
      Unlink(next, prev, order, k);
      MoveToFrontAged(order, stamp, clock, k);
      MoveToFrontComplete(order, k);
      var before, after := prev[i], next[i];
      prev := prev[after := before];
      next := next[before := after];
      LinkFirst(next, prev, Remove(order, k), i);
      var first := next[HEAD];
      next := next[i := first][HEAD := i];
      prev := prev[i := HEAD][first := i];
      order, stamp, clock := [i as int] + Remove(order, k), stamp[i := clock], clock + 1;
    }

    /** `brelse`: unlock, and when nobody else waits move to the front of the list. */
    method Brelse(i: nat)
      requires Valid() && i < NBUF && bufs[i].dev == ROOTDEV && bufs[i].holder.Some?
      modifies this`bufs, this`next, this`prev, this`order, this`stamp, this`clock
      ensures Valid() && bufs == old(bufs)[i := old(bufs[i]).(holder := None, refcnt := old(bufs[i].refcnt) - 1)]
      ensures Abs() == old(Abs())[bufs[i].blockno := old(Abs()[bufs[i].blockno]).(holder := None)]
      ensures bufs[i].refcnt > 0 ==> order == old(order) && stamp == old(stamp)
      ensures bufs[i].refcnt == 0 ==>
        && order == [i as int] + Remove(old(order), PositionOf(old(order), i))
        && stamp == old(stamp)[i := old(clock)]
    {
      var released := bufs[i].(holder := None, refcnt := bufs[i].refcnt - 1);
      ContentsUpdate(bufs, where, |disk|, i, released);
      bufs := bufs[i := released];
      if bufs[i].refcnt == 0 {
        MoveToFront(i);
      }
    }
  }

  const UNUSED := Buf(0, 0, false, false, 0, None, seq(BLOCK_WORDS, _ => 0))

  // ---------------------------------------------------------------- counting

  /** Block b has a buffer, or there is one to be recycled: `bread` does not panic. */
  ghost predicate FindsBuffer(bufs: seq<Buf>, where: map<nat, nat>, b: nat) {
    b in where || exists i :: 0 <= i < |bufs| && Recyclable(bufs[i])
  }

  /** The blocks whose buffers are referenced or dirty. */
  ghost function Busy(bufs: seq<Buf>): set<nat> {
    set i | 0 <= i < |bufs| && !Recyclable(bufs[i]) :: bufs[i].blockno
  }

  lemma OneIsFree(bufs: seq<Buf>, blocknos: seq<nat>, i: nat)
    requires |blocknos| == |bufs| && forall j :: 0 <= j < |bufs| ==> blocknos[j] == bufs[j].blockno
    requires i < |bufs| && Recyclable(bufs[i])
    ensures |Busy(bufs)| < |bufs|
  {
    var rest := blocknos[..i] + blocknos[i + 1..];
    forall x | x in Busy(bufs) ensures x in Counting.Members(rest) {
      var j :| 0 <= j < |bufs| && !Recyclable(bufs[j]) && bufs[j].blockno == x;
      assert rest[if j < i then j else j - 1] == x;
    }
    SetOfSeqSize(rest);
    assert Counting.Members(rest) == Busy(bufs) + (Counting.Members(rest) - Busy(bufs));
  }

  lemma AllBusy(bufs: seq<Buf>, blocknos: seq<nat>)
    requires |blocknos| == |bufs|
    requires forall i :: 0 <= i < |bufs| ==> !Recyclable(bufs[i]) && blocknos[i] == bufs[i].blockno
    ensures Busy(bufs) == Counting.Members(blocknos)
  {
    forall x | x in Counting.Members(blocknos) ensures x in Busy(bufs) {
      var i :| 0 <= i < |blocknos| && blocknos[i] == x;
      assert !Recyclable(bufs[i]);
    }
  }

  /** A buffer to recycle is found exactly while fewer than NBUF blocks are busy. */
  lemma FindsBufferIff(bufs: seq<Buf>, where: map<nat, nat>, blocks: nat, b: nat)
    requires |bufs| == NBUF && WellKeyed(bufs, where, blocks) && WellUsed(bufs)
    ensures FindsBuffer(bufs, where, b) <==> b in where || |Busy(bufs)| < NBUF
  {
    var blocknos: seq<nat> := seq(NBUF, i requires 0 <= i < NBUF => bufs[i].blockno);
    if i :| 0 <= i < NBUF && Recyclable(bufs[i]) {
      OneIsFree(bufs, blocknos, i);
    } else {
      forall i, j | 0 <= i < j < NBUF ensures blocknos[i] != blocknos[j] {
        assert where[bufs[i].blockno] == i && where[bufs[j].blockno] == j;
      }
      DistinctSize(blocknos);
      AllBusy(bufs, blocknos);
    }
  }

  /** The log pins fewer buffers than there are, so one that is not referenced can be recycled. */
  lemma SomeBufferRecyclable(bufs: seq<Buf>, where: map<nat, nat>, blocks: nat, pinned: seq<Word>)
    requires |bufs| == NBUF && WellKeyed(bufs, where, blocks) && WellUsed(bufs) && |pinned| < NBUF
    requires forall i :: 0 <= i < NBUF ==> bufs[i].refcnt == 0 || bufs[i].blockno in pinned
    requires forall i :: 0 <= i < NBUF && bufs[i].dirty ==> bufs[i].blockno in pinned
    ensures exists i :: 0 <= i < NBUF && Recyclable(bufs[i])
  {
    if forall i :: 0 <= i < NBUF ==> !Recyclable(bufs[i]) {
      var blocknos: seq<int> := seq(NBUF, i requires 0 <= i < NBUF => bufs[i].blockno);
      forall i, j | 0 <= i < j < NBUF ensures blocknos[i] != blocknos[j] {
        assert where[bufs[i].blockno] == i && where[bufs[j].blockno] == j;
      }
      DistinctFits(blocknos, pinned);
    }
  }
}
