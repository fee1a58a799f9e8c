/**
 Pipes (pipe.c).  PipeMachine has one step per section that holds the pipe's lock, from
 taking it (at the call, or on waking up) to releasing it (on return, or in sleep).
 */
module PipeMachine {
  import opened Common

  const PIPESIZE := 512

  type Pid = nat

  datatype Pipe = Pipe(
    buf: seq<Byte>,
    readopen: bool,
    writeopen: bool,
    readers: set<Pid>,     // asleep on &p->nread
    writers: set<Pid>)     // asleep on &p->nwrite

  datatype Step =
    | Write(pid: Pid, bytes: seq<Byte>, killed: bool)   // bytes: what is left of the request
    | Read(pid: Pid, n: nat, killed: bool)
    | Close(writable: bool)
    | KillWakes(pid: Pid)

  datatype Outcome = Done | Slept | Failed

  function Min(a: int, b: int): int {
    if a < b then a else b
  }

  /** How many bytes a write section puts into the buffer. */
  function Accepted(s: Pipe, bytes: seq<Byte>): nat
    requires |s.buf| <= PIPESIZE
  {
    Min(|bytes|, PIPESIZE - |s.buf|)
  }

  function WriteOutcome(s: Pipe, bytes: seq<Byte>, killed: bool): Outcome
    requires |s.buf| <= PIPESIZE
  {
    if Accepted(s, bytes) == |bytes| then Done else if !s.readopen || killed then Failed else Slept
  }

  function DoWrite(s: Pipe, pid: Pid, bytes: seq<Byte>, killed: bool): Pipe
    requires |s.buf| <= PIPESIZE
  {
    var s1 := s.(buf := s.buf + bytes[..Accepted(s, bytes)]);
    match WriteOutcome(s, bytes, killed)
    case Done => s1.(readers := {})
    case Slept => s1.(readers := {}, writers := s.writers + {pid})
    case Failed => s1
  }

  function ReadOutcome(s: Pipe, killed: bool): Outcome {
    if s.buf != [] || !s.writeopen then Done else if killed then Failed else Slept
  }

  /** The bytes a read section returns. */
  function Delivered(s: Pipe, n: nat, killed: bool): seq<Byte> {
    if ReadOutcome(s, killed).Done? then s.buf[..Min(n, |s.buf|)] else []
  }

  function DoRead(s: Pipe, pid: Pid, n: nat, killed: bool): Pipe {
    match ReadOutcome(s, killed)
    case Done => s.(buf := s.buf[Min(n, |s.buf|)..], writers := {})
    case Slept => s.(readers := s.readers + {pid})
    case Failed => s
  }

  function DoClose(s: Pipe, writable: bool): Pipe {
    if writable then s.(writeopen := false, readers := {}) else s.(readopen := false, writers := {})
  }

  function Do(s: Pipe, step: Step): Pipe
    requires |s.buf| <= PIPESIZE
  {
    match step
    case Write(pid, bytes, killed) => DoWrite(s, pid, bytes, killed)
    case Read(pid, n, killed) => DoRead(s, pid, n, killed)
    case Close(writable) => DoClose(s, writable)
    case KillWakes(pid) => s.(readers := s.readers - {pid}, writers := s.writers - {pid})
  }

  /**
   A process asleep takes no step, and an end stays open while a process is inside a
   call on it: the file reference it holds is what keeps the end open.
   */
  predicate Enabled(s: Pipe, step: Step) {
    match step
    case Write(pid, bytes, killed) => s.writeopen && pid !in s.readers && pid !in s.writers
    case Read(pid, n, killed) => s.readopen && pid !in s.readers && pid !in s.writers
    case Close(writable) => if writable then s.writeopen && s.writers == {} else s.readopen && s.readers == {}
    case KillWakes(pid) => true
  }

  /** Whoever sleeps still has its reason to sleep. */
  ghost predicate Awake(s: Pipe) {
    && |s.buf| <= PIPESIZE
    && (s.readers != {} ==> s.buf == [] && s.writeopen && s.readopen)
    && (s.writers != {} ==> |s.buf| == PIPESIZE && s.readopen && s.writeopen)
  }

  /** A killed writer fills the buffer and leaves without waking the readers. */
  predicate LosesWakeup(s: Pipe, step: Step) {
    && step.Write? && step.killed && s.readers != {} && |step.bytes| > PIPESIZE
  }

  /** Every section keeps the sleepers right, except that one, which never does. */
  lemma KeepAwakeIff(s: Pipe, step: Step)
    requires Awake(s) && Enabled(s, step)
    ensures Awake(Do(s, step)) <==> !LosesWakeup(s, step)
  {
  }

  // ------------------------------------------------------------- whole runs

  datatype Run = Run(states: seq<Pipe>, steps: seq<Step>)

  /** From `pipealloc` on. */
  ghost predicate IsRun(r: Run) {
    && |r.states| == |r.steps| + 1 && r.states[0] == Pipe([], true, true, {}, {})
    && forall i :: 0 <= i < |r.steps| ==> Follows(r.states[i], r.steps[i], r.states[i + 1])
  }

  ghost predicate Follows(s: Pipe, step: Step, s': Pipe) {
    |s.buf| <= PIPESIZE && Enabled(s, step) && s' == Do(s, step)
  }

  /** No lost wakeup in any interleaving of readers, writers and closes without that exit. */
  lemma {:induction false} NoLostWakeup(r: Run, i: nat)
    requires IsRun(r) && i < |r.states|
    requires forall k :: 0 <= k < i ==> !LosesWakeup(r.states[k], r.steps[k])
    ensures Awake(r.states[i])
  {
    if i > 0 {
      NoLostWakeup(r, i - 1);
      assert Follows(r.states[i - 1], r.steps[i - 1], r.states[i - 1 + 1]);
      KeepAwakeIff(r.states[i - 1], r.steps[i - 1]);
    }
  }

  /** A run in which it happens: a reader sleeps, and a killed writer strands it with a full pipe. */
  lemma KilledWriterStrandsReader(bytes: seq<Byte>)
    requires |bytes| > PIPESIZE
    ensures var s1 := DoRead(Pipe([], true, true, {}, {}), 1, 1, false);
            var r := Run([Pipe([], true, true, {}, {}), s1, DoWrite(s1, 2, bytes, true)],
                         [Read(1, 1, false), Write(2, bytes, true)]);
            && IsRun(r) && 1 in r.states[2].readers && |r.states[2].buf| == PIPESIZE
  {
    var s0 := Pipe([], true, true, {}, {});
    var s1 := DoRead(s0, 1, 1, false);
    assert s1 == s0.(readers := {1});
    var s2 := DoWrite(s1, 2, bytes, true);
    assert Follows(s0, Read(1, 1, false), s1) && Follows(s1, Write(2, bytes, true), s2);
  }

  /** The bytes a step puts in, and the bytes it hands out. */
  function BytesIn(s: Pipe, step: Step): seq<Byte>
    requires |s.buf| <= PIPESIZE
  {
    if step.Write? then step.bytes[..Accepted(s, step.bytes)] else []
  }

  function BytesOut(s: Pipe, step: Step): seq<Byte> {
    if step.Read? then Delivered(s, step.n, step.killed) else []
  }

  lemma FifoStep(s: Pipe, step: Step)
    requires |s.buf| <= PIPESIZE
    ensures s.buf + BytesIn(s, step) == BytesOut(s, step) + Do(s, step).buf
  {
  }

  /** All bytes put in, and all bytes handed out, in the first k steps. */
  ghost function Written(r: Run, k: nat): seq<Byte>
    requires k <= |r.steps| < |r.states| && forall i :: 0 <= i < k ==> |r.states[i].buf| <= PIPESIZE
  {
    if k == 0 then [] else Written(r, k - 1) + BytesIn(r.states[k - 1], r.steps[k - 1])
  }

  ghost function ReadBack(r: Run, k: nat): seq<Byte>
    requires k <= |r.steps| < |r.states|
  {
    if k == 0 then [] else ReadBack(r, k - 1) + BytesOut(r.states[k - 1], r.steps[k - 1])
  }

  lemma BufferBounded(r: Run)
    requires IsRun(r)
    ensures forall i :: 0 <= i < |r.states| ==> |r.states[i].buf| <= PIPESIZE
  {
    forall i | 0 <= i < |r.states| ensures |r.states[i].buf| <= PIPESIZE {
      if i > 0 {
        assert Follows(r.states[i - 1], r.steps[i - 1], r.states[i - 1 + 1]);
      }
    }
  }

  lemma FifoAt(r: Run, k: nat)
    requires IsRun(r) && k < |r.steps| && |r.states[k].buf| <= PIPESIZE
    ensures r.states[k].buf + BytesIn(r.states[k], r.steps[k]) ==
            BytesOut(r.states[k], r.steps[k]) + r.states[k + 1].buf
  {
    assert Follows(r.states[k], r.steps[k], r.states[k + 1]);
    FifoStep(r.states[k], r.steps[k]);
  }

  lemma Chain<T>(w: seq<T>, r: seq<T>, b: seq<T>, i: seq<T>, o: seq<T>, b': seq<T>)
    requires w == r + b && b + i == o + b'
    ensures w + i == r + o + b'
  {
    assert w + i == r + (b + i) && r + (o + b') == r + o + b';
  }

  lemma {:induction false} FifoUpTo(r: Run, k: nat)
    requires IsRun(r) && k < |r.states| && forall i :: 0 <= i < |r.states| ==> |r.states[i].buf| <= PIPESIZE
    ensures Written(r, k) == ReadBack(r, k) + r.states[k].buf
  {
    if k > 0 {
      FifoUpTo(r, k - 1);
      FifoAt(r, k - 1);
      Chain(Written(r, k - 1), ReadBack(r, k - 1), r.states[k - 1].buf,
            BytesIn(r.states[k - 1], r.steps[k - 1]), BytesOut(r.states[k - 1], r.steps[k - 1]), r.states[k].buf);
    }
  }

  /** First in, first out: what was read is a prefix of what was written, and the buffer is the rest. */
  lemma Fifo(r: Run, k: nat)
    requires IsRun(r) && k < |r.states|
    ensures forall i :: 0 <= i < |r.states| ==> |r.states[i].buf| <= PIPESIZE
    ensures Written(r, k) == ReadBack(r, k) + r.states[k].buf
  {
    BufferBounded(r);
    FifoUpTo(r, k);
  }

  /** A read that does not wait and is not killed hands out all it can, a write puts in all it can. */
  lemma MovesAll(r: Run, k: nat)
    requires IsRun(r) && k < |r.steps|
    ensures |r.states[k].buf| <= 512
    ensures r.steps[k].Read? && (r.states[k].buf != [] || !r.states[k].writeopen) ==>
      |BytesOut(r.states[k], r.steps[k])| == Min(r.steps[k].n, |r.states[k].buf|)
    ensures r.steps[k].Write? ==>
      |BytesIn(r.states[k], r.steps[k])| == Min(|r.steps[k].bytes|, 512 - |r.states[k].buf|)
  {
    assert Follows(r.states[k], r.steps[k], r.states[k + 1]);
  }

  /**
   End of file: a read of at least one byte that returns none has read all that was ever written,
   and the write end is closed; and only then does it return none.
   */
  lemma EndOfFileIff(r: Run, k: nat)
    requires IsRun(r) && k < |r.steps| && r.steps[k].Read? && r.steps[k].n > 0
    requires r.states[k].buf != [] || !r.states[k].writeopen
    ensures forall i :: 0 <= i < |r.states| ==> |r.states[i].buf| <= PIPESIZE
    ensures BytesOut(r.states[k], r.steps[k]) == [] <==> Written(r, k) == ReadBack(r, k) && !r.states[k].writeopen
  {
    Fifo(r, k);
    MovesAll(r, k);
    assert |Written(r, k)| == |ReadBack(r, k)| + |r.states[k].buf|;
    if r.states[k].buf == [] {
      assert ReadBack(r, k) + [] == ReadBack(r, k);
    }
  }
}

/** pipe.c as it is written: a ring buffer with 32-bit counters that wrap around. */
module PipeCode {
  import opened Common
  import opened PipeMachine

  lemma SlotOfCounter(x: nat)
    ensures x % UINT % PIPESIZE == x % PIPESIZE
  {
    assert x == x / UINT * UINT + x % UINT && UINT == 8388608 * PIPESIZE;
    ModAdd(x / UINT * 8388608, x % UINT);
  }

  lemma ModAdd(m: nat, y: nat)
    ensures (m * PIPESIZE + y) % PIPESIZE == y % PIPESIZE
  {
    var q, r := y / PIPESIZE, y % PIPESIZE;
    assert m * PIPESIZE + y == (m + q) * PIPESIZE + r;
  }

  /** The place in the ring of the k-th unread byte. */
  function Slot(total: nat, k: nat): nat {
    (total + k) % PIPESIZE
  }

  /** Bytes fewer than 512 apart use different places of the ring. */
  lemma DistinctSlots(total: nat, len: nat)
    requires len < PIPESIZE
    ensures forall k :: 0 <= k < len ==> Slot(total, k) != Slot(total, len)
  {
  }

  /** The tests for full and empty read the true difference off the wrapped counters. */
  lemma FullAndEmpty(total: nat, len: nat)
    requires len <= PIPESIZE
    ensures (total + len) % UINT == (total % UINT + PIPESIZE) % UINT <==> len == PIPESIZE
    ensures total % UINT == (total + len) % UINT <==> len == 0
  {
  }

  lemma CounterStep(total: nat)
    ensures (total + 1) % UINT == (total % UINT + 1) % UINT
  {
  }

  class PipeBuffer {
    const data: array<Byte>
    var nread: nat
    var nwrite: nat
    var readopen: bool
    var writeopen: bool
    var readers: set<Pid>          // asleep on &p->nread
    var writers: set<Pid>          // asleep on &p->nwrite
    ghost var total: nat           // bytes read since the pipe was made
    ghost var buf: seq<Byte>       // bytes written and not yet read

    ghost predicate Valid()
      reads this, data
    {
      && data.Length == PIPESIZE && |buf| <= PIPESIZE
      && nread == total % UINT && nwrite == (total + |buf|) % UINT
      && forall k :: 0 <= k < |buf| ==> data[Slot(total, k)] == buf[k]
    }

    ghost function Abs(): Pipe
      reads this
    {
      Pipe(buf, readopen, writeopen, readers, writers)
    }

    /** `pipealloc` */
    constructor ()
      ensures Valid() && Abs() == Pipe([], true, true, {}, {}) && fresh(data)
    {
      data := new Byte[PIPESIZE];
      readopen, writeopen := true, true;
      nwrite, nread := 0, 0;
      readers, writers := {}, {};
      total, buf := 0, [];
    }

    /** `p->data[p->nwrite++ % PIPESIZE] = b` */
    method Put(b: Byte)
      requires Valid() && |buf| < PIPESIZE
      modifies this`nwrite, this`buf, data
      ensures Valid() && buf == old(buf) + [b]
    {
      SlotOfCounter(total + |buf|);
      CounterStep(total + |buf|);
      DistinctSlots(total, |buf|);
      data[nwrite % PIPESIZE] := b;
      nwrite := (nwrite + 1) % UINT;
      buf := buf + [b];
    }

    /** `p->data[p->nread++ % PIPESIZE]` */
    method Get() returns (b: Byte)
      requires Valid() && buf != []
      modifies this`nread, this`total, this`buf
      ensures Valid() && b == old(buf)[0] && buf == old(buf)[1..] && total == old(total) + 1
    {
      SlotOfCounter(total);
      CounterStep(total);
      assert data[Slot(total, 0)] == buf[0];
      b := data[nread % PIPESIZE];
      nread := (nread + 1) % UINT;
      forall k | 0 <= k < |buf| - 1 ensures data[Slot(total + 1, k)] == buf[1..][k] {
        assert data[Slot(total, k + 1)] == buf[k + 1];
      }
      total, buf := total + 1, buf[1..];
    }

    /**
     `pipewrite` from byte i on: until it returns or goes to sleep.  i counts on, so that the
     caller resumes with the rest.
     */
    method WriteSection(pid: Pid, addr: seq<Byte>, start: nat, killed: bool) returns (i: nat, outcome: Outcome)
      requires Valid() && start <= |addr|
      modifies this`nwrite, this`buf, this`readers, this`writers, data
      ensures Valid() && total == old(total)
      ensures outcome == WriteOutcome(old(Abs()), addr[start..], killed)
      ensures i == start + Accepted(old(Abs()), addr[start..])
      ensures Abs() == DoWrite(old(Abs()), pid, addr[start..], killed)
      ensures i == start + Min(|addr| - start, 512 - |old(buf)|) && buf == old(buf) + addr[start..i]
      ensures outcome == Done <==> i == |addr|
      ensures outcome == Failed <==> i < |addr| && (!readopen || killed)
      ensures readers == (if outcome == Failed then old(readers) else {})
      ensures writers == (if outcome == Slept then old(writers) + {pid} else old(writers))
    {
      i := start;
      while i < |addr|
        invariant start <= i <= |addr| && Valid() && total == old(total)
        invariant buf == old(buf) + addr[start..i] && readers == old(readers) && writers == old(writers)
      {
        FullAndEmpty(total, |buf|);
        if nwrite == (nread + PIPESIZE) % UINT {
          assert addr[start..][..i - start] == addr[start..i];
          if !readopen || killed {
            return i, Failed;
          }
          readers := {};
          writers := writers + {pid};
          return i, Slept;
        }
        Put(addr[i]);
        i := i + 1;
      }
      assert addr[start..][..|addr| - start] == addr[start..|addr|];
      readers := {};
      return i, Done;
    }

    /** `piperead`: until it returns or goes to sleep. */
    method ReadSection(pid: Pid, n: nat, killed: bool) returns (addr: seq<Byte>, outcome: Outcome)
      requires Valid()
      modifies this`nread, this`total, this`buf, this`readers, this`writers
      ensures Valid() && outcome == ReadOutcome(old(Abs()), killed)
      ensures addr == Delivered(old(Abs()), n, killed)
      ensures Abs() == DoRead(old(Abs()), pid, n, killed)
      ensures addr + buf == old(buf)
      ensures outcome == Done <==> old(buf) != [] || !writeopen
      ensures outcome == Failed <==> old(buf) == [] && writeopen && killed
      ensures |addr| == (if outcome == Done then Min(n, |old(buf)|) else 0)
      ensures writers == (if outcome == Done then {} else old(writers))
      ensures readers == (if outcome == Slept then old(readers) + {pid} else old(readers))
    {
      addr := [];
      FullAndEmpty(total, |buf|);
      if nread == nwrite && writeopen {
        if killed {
          return addr, Failed;
        }
        readers := readers + {pid};
        return addr, Slept;
      }
      addr := CopyOut(n);
      writers := {};
      return addr, Done;
    }

    /** The loop of `piperead`. */
    method CopyOut(n: nat) returns (addr: seq<Byte>)
      requires Valid()
      modifies this`nread, this`total, this`buf
      ensures Valid() && |addr| == Min(n, |old(buf)|)
      ensures addr == old(buf)[..|addr|] && buf == old(buf)[|addr|..]
    {
      addr := [];
      var i := 0;
      while i < n
        invariant 0 <= i <= n && Valid() && i <= |old(buf)|
        invariant addr == old(buf)[..i] && buf == old(buf)[i..]
      {
        FullAndEmpty(total, |buf|);
        if nread == nwrite {
          break;
        }
        var b := Get();
        addr := addr + [b];
        i := i + 1;
      }
    }

    /** `pipeclose`; true when both ends are closed and the page is freed. */
    method Close(writable: bool) returns (freed: bool)
      requires Valid()
      modifies this`readopen, this`writeopen, this`readers, this`writers
      ensures Valid() && Abs() == DoClose(old(Abs()), writable)
      ensures if writable then !writeopen && readers == {} && readopen == old(readopen) && writers == old(writers)
              else !readopen && writers == {} && writeopen == old(writeopen) && readers == old(readers)
      ensures freed <==> !readopen && !writeopen
    {
      if writable {
        writeopen := false;
        readers := {};
      } else {
        readopen := false;
        writers := {};
      }
      return !readopen && !writeopen;
    }
  }
}
