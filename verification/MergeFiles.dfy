/** merge_files.c as it is written: buffered files over short reads and short writes. */
module MergeFiles {
  import opened Common
  import opened MergeSpec

  datatype Status = Ok | ReadEnding | ReadEnded

  /**
   What the kernel will make of the calls of read() or write() on a descriptor: the k-th call
   fails if entry k is negative, and is otherwise offered that many bytes. Calls past the end
   of the script transfer all they can. Every way a device may behave is one of these.
   */
  type Script = seq<int>

  predicate Fails(script: Script, k: nat) {
    k < |script| && script[k] < 0
  }

  predicate Refuses(script: Script, k: nat) {
    k < |script| && script[k] == 0
  }

  /** Some call is going to fail. */
  ghost predicate Faulty(script: Script) {
    exists k: nat :: Fails(script, k)
  }

  class InFile {
    const bufsize: nat
    const buffer: array<Byte>
    const script: Script
    var calls: nat
    var offset: nat
    var available: nat
    var status: Status
    var unread: seq<Byte>   // what read() has not delivered yet

    ghost predicate Valid()
      reads this, buffer
    {
      && bufsize >= 1 && buffer.Length == bufsize && offset + available <= bufsize
      && (status != Ok ==> unread == []) && (status == ReadEnded ==> available == 0)
    }

    /** What the program has not seen of the file. */
    ghost function Rest(): seq<Byte>
      requires Valid()
      reads this, buffer
    {
      buffer[offset..offset + available] + unread
    }

    constructor (bufsize: nat, contents: seq<Byte>, script: Script)
      requires bufsize >= 1
      ensures Valid() && fresh(buffer) && status == Ok && Rest() == contents && this.script == script
    {
      this.bufsize, this.script := bufsize, script;
      buffer := new Byte[bufsize](_ => 0);
      calls, offset, available, status, unread := 0, 0, 0, Ok, contents;
    }

    /** read(): -1, or 0 at the end of the file, or a positive number of bytes up to `count`. */
    method SysRead(off: nat, count: nat) returns (num: int)
      requires 0 < count && off + count <= buffer.Length
      modifies this`unread, this`calls, buffer
      ensures -1 <= num <= count && num <= |old(unread)|
      ensures num == -1 <==> Fails(script, old(calls))
      ensures num == 0 ==> old(unread) == []
      ensures num <= 0 ==> unread == old(unread) && buffer[..] == old(buffer[..])
      ensures num > 0 ==> unread == old(unread)[num..]
      ensures num > 0 ==> buffer[..] == old(buffer[..])[..off] + old(unread)[..num] + old(buffer[..])[off + num..]
    {
      calls := calls + 1;
      if Fails(script, calls - 1) {
        return -1;
      }
      num := if calls <= |script| && 0 < script[calls - 1] < count then script[calls - 1] else count;
      num := if num <= |unread| then num else |unread|;
      forall j | 0 <= j < num {
        buffer[off + j] := unread[j];
      }
      unread := unread[num..];
    }

    /** `read_all`; false is exit(EXIT_FAILURE). Short reads add up to a full buffer or the rest. */
    method ReadAll() returns (ok: bool, total: nat)
      requires bufsize >= 1 && buffer.Length == bufsize
      modifies this`unread, this`calls, buffer
      ensures total <= bufsize && buffer[..total] + unread == old(unread)
      ensures ok && total < bufsize ==> unread == []
      ensures !ok ==> Faulty(script)
    {
      total := 0;
      var num := 0;
      assert buffer[..0] + unread == old(unread);
      while total < bufsize
        invariant total <= bufsize && buffer[..total] + unread == old(unread) && num >= 0
      {
        ghost var before, was := unread, buffer[..];
        num := SysRead(total, bufsize - total);
        if num <= 0 {
          assert buffer[..total] == was[..total];
          break;
        }
        assert buffer[..total + num] == was[..total] + before[..num];
        assert before == before[..num] + before[num..];
        total := total + num;
      }
      ok := num != -1;
    }

    /** The refill of `read_char`: what is left stays the same, and it is in the buffer unless there is nothing. */
    method Refill() returns (ok: bool)
      requires Valid() && status == Ok && available == 0
      modifies this`offset, this`available, this`status, this`unread, this`calls, buffer
      ensures !ok ==> Faulty(script)
      ensures ok ==> Valid() && Rest() == old(Rest())
      ensures ok && available == 0 ==> status == ReadEnding
      ensures status != ReadEnded
    {
      assert Rest() == unread;
      offset := 0;
      ok, available := ReadAll();
      if !ok {
        return;
      }
      assert Rest() == buffer[..available] + unread;
      if available < bufsize {
        status := ReadEnding;
      }
    }

    /** Takes the next byte out of the buffer. */
    method Take() returns (c: Byte)
      requires Valid() && available > 0
      modifies this`offset, this`available
      ensures Valid() && old(Rest()) != [] && c == old(Rest())[0] && Rest() == old(Rest())[1..]
    {
      ghost var rest := Rest();
      c := buffer[offset];
      assert rest[0] == c;
      available := available - 1;
      offset := offset + 1;
      assert Rest() == rest[1..];
    }

    /** `read_char`: the next byte, or ReadEnded when there is none; ok is false for exit(EXIT_FAILURE). */
    method ReadChar() returns (ok: bool, c: Byte)
      requires Valid()
      modifies this`offset, this`available, this`status, this`unread, this`calls, buffer
      ensures !ok ==> Faulty(script)
      ensures ok ==> Valid()
      ensures ok ==> (status == ReadEnded <==> old(Rest()) == [])
      ensures ok && old(Rest()) == [] ==> Rest() == []
      ensures ok && old(Rest()) != [] ==> c == old(Rest())[0] && Rest() == old(Rest())[1..]
    {
      if status == ReadEnded {
        return true, 255;
      }
      if status == Ok && available == 0 {
        ok := Refill();
        if !ok {
          return false, 0;
        }
      }
      if status == ReadEnding && available == 0 {
        status := ReadEnded;
        return true, 255;
      }
      c := Take();
      return true, c;
    }
  }

  // ------------------------------------------------------------- what was written

  /** What one flush did: the bytes it got out, and those it dropped after a write() that took none. */
  datatype Piece = Piece(written: seq<Byte>, dropped: seq<Byte>)

  function Written(ps: seq<Piece>): seq<Byte> {
    if ps == [] then [] else Written(ps[..|ps| - 1]) + ps[|ps| - 1].written
  }

  function Given(ps: seq<Piece>): seq<Byte> {
    if ps == [] then [] else Given(ps[..|ps| - 1]) + (ps[|ps| - 1].written + ps[|ps| - 1].dropped)
  }

  /** How many stretches were dropped. */
  function Drops(ps: seq<Piece>): nat {
    if ps == [] then 0 else Drops(ps[..|ps| - 1]) + if ps[|ps| - 1].dropped == [] then 0 else 1
  }

  /** How many calls returned 0. */
  function Zeros(answers: seq<int>): nat {
    if answers == [] then 0 else Zeros(answers[..|answers| - 1]) + if answers[|answers| - 1] == 0 then 1 else 0
  }

  lemma {:induction false} NoZeros(answers: seq<int>)
    ensures Zeros(answers) == 0 <==> 0 !in answers
  {
    if answers != [] {
      var n := |answers| - 1;
      NoZeros(answers[..n]);
      assert answers == answers[..n] + [answers[n]];
    }
  }

  /** Nothing is missing exactly when nothing was dropped. */
  lemma {:induction false} NoDrops(ps: seq<Piece>)
    ensures |Written(ps)| <= |Given(ps)|
    ensures Drops(ps) == 0 ==> Written(ps) == Given(ps)
    ensures Drops(ps) > 0 ==> |Written(ps)| < |Given(ps)|
  {
    if ps != [] {
      NoDrops(ps[..|ps| - 1]);
    }
  }

  lemma NextPiece(ps: seq<Piece>, p: Piece)
    ensures Written(ps + [p]) == Written(ps) + p.written
    ensures Given(ps + [p]) == Given(ps) + (p.written + p.dropped)
    ensures Drops(ps + [p]) == Drops(ps) + if p.dropped == [] then 0 else 1
  {
    assert (ps + [p])[..|ps|] == ps;
  }

  /** The list after a flush of `held` of which `total` bytes get out, and if all is well the rest is dropped. */
  lemma FlushedPiece(ps: seq<Piece>, held: seq<Byte>, total: nat, ok: bool) returns (next: seq<Piece>)
    requires total <= |held|
    ensures Written(next) == Written(ps) + held[..total] && Given(next) <= Given(ps) + held
    ensures ok ==> Given(next) == Given(ps) + held
    ensures Drops(next) == Drops(ps) + if ok && total < |held| then 1 else 0
  {
    var p := Piece(held[..total], if ok then held[total..] else []);
    next := ps + [p];
    NextPiece(ps, p);
    assert held[..total] + held[total..] == held;
  }

  lemma NextAnswer(answers: seq<int>, a: int)
    ensures Zeros(answers + [a]) == Zeros(answers) + if a == 0 then 1 else 0
  {
    assert (answers + [a])[..|answers|] == answers;
  }

  class OutFile {
    const bufsize: nat
    const buffer: array<Byte>
    const script: Script
    var calls: nat
    var offset: nat
    var available: nat
    var sink: seq<Byte>             // what write() has accepted
    ghost var emitted: seq<Byte>    // what write_char has been given
    ghost var answers: seq<int>     // what the calls of write() have returned
    ghost var pieces: seq<Piece>    // what the flushes have done

    /** The answers are those of the script, and nothing gets out without a call. */
    ghost predicate Scripted()
      reads this
    {
      && |answers| == calls
      && (forall k: nat :: k < calls ==> (answers[k] == 0 <==> Refuses(script, k)))
      && (calls == 0 ==> sink == [])
    }

    /**
     The output is what was emitted so far without the dropped stretches, nothing reordered and
     nothing invented, and there is one dropped stretch for every write() that returned 0.
     */
    ghost predicate Told()
      reads this
    {
      Scripted() && sink == Written(pieces) && Given(pieces) <= emitted && Drops(pieces) == Zeros(answers)
    }

    ghost predicate Valid()
      reads this, buffer
    {
      && bufsize >= 1 && buffer.Length == bufsize && offset == available <= bufsize
      && Told() && emitted == Given(pieces) + buffer[..available]
    }

    constructor (bufsize: nat, script: Script)
      requires bufsize >= 1
      ensures Valid() && fresh(buffer) && sink == emitted == [] && this.script == script
    {
      this.bufsize, this.script := bufsize, script;
      buffer := new Byte[bufsize](_ => 0);
      calls, offset, available, sink := 0, 0, 0, [];
      emitted, answers, pieces := [], [], [];
    }

    /** write(): -1, or any number of bytes up to `count`. */
    method SysWrite(off: nat, count: nat) returns (num: int)
      requires 0 < count && off + count <= buffer.Length && Scripted()
      modifies this`sink, this`calls, this`answers
      ensures -1 <= num <= count && Scripted() && answers == old(answers) + [num]
      ensures num == -1 <==> Fails(script, old(calls))
      ensures num == 0 <==> Refuses(script, old(calls))
      ensures sink == old(sink) + buffer[off..off + (if num < 0 then 0 else num)]
    {
      num := if calls < |script| && script[calls] < count then script[calls] else count;
      if num < 0 {
        num := -1;
      }
      calls := calls + 1;
      answers := answers + [num];
      if num > 0 {
        sink := sink + buffer[off..off + num];
      }
    }

    /**
     `write_all`; false is exit(EXIT_FAILURE). The bytes that get out are the first of the
     buffer, and all of them unless this call saw write() return 0.
     */
    method WriteAll(n: nat) returns (ok: bool, total: nat)
      requires n <= buffer.Length && Scripted()
      modifies this`sink, this`calls, this`answers
      ensures total <= n && sink == old(sink) + buffer[..total] && Scripted()
      ensures old(answers) <= answers
      ensures ok ==> Zeros(answers) == Zeros(old(answers)) + if total < n then 1 else 0
      ensures ok && total < n <==> 0 in answers[|old(answers)|..]
      ensures !ok <==> -1 in answers[|old(answers)|..]
      ensures !ok ==> Faulty(script) && total < n && Zeros(answers) == Zeros(old(answers))
    {
      total := 0;
      var num := 0;
      while total < n
        invariant total <= n && sink == old(sink) + buffer[..total] && Scripted() && num >= 0
        invariant old(answers) <= answers && Zeros(answers) == Zeros(old(answers))
        invariant forall k :: |old(answers)| <= k < |answers| ==> answers[k] > 0
      {
        ghost var was := answers;
        num := SysWrite(total, n - total);
        NextAnswer(was, num);
        assert num == answers[|old(answers)|..][|was| - |old(answers)|];
        if num <= 0 {
          break;
        }
        assert buffer[..total] + buffer[total..total + num] == buffer[..total + num];
        total := total + num;
      }
      ok := num != -1;
    }

    /** The call of `write_all` in `flush_file`, entered in the list of what the flushes have done. */
    method WriteOut() returns (ok: bool)
      requires Valid()
      modifies this`sink, this`calls, this`answers, this`pieces
      ensures Told() && old(answers) <= answers
      ensures ok ==> Given(pieces) == emitted
      ensures ok ==> (0 !in answers[|old(answers)|..] <==> Drops(pieces) == old(Drops(pieces)))
      ensures !ok ==> Faulty(script)
    {
      var total;
      ok, total := WriteAll(available);
      ghost var held := buffer[..available];
      assert buffer[..total] == held[..total];
      ghost var next := FlushedPiece(pieces, held, total, ok);
      pieces := next;
    }

    /**
     `flush_file`: the buffer is empty afterwards, and a stretch of it was dropped if and only
     if this call saw write() return 0.
     */
    method Flush() returns (ok: bool)
      requires Valid()
      modifies this
      ensures emitted == old(emitted) && Told() && old(answers) <= answers
      ensures ok ==> Valid() && available == 0 && Given(pieces) == emitted
      ensures ok ==> (0 !in answers[|old(answers)|..] <==> Drops(pieces) == old(Drops(pieces)))
      ensures !ok ==> Faulty(script)
    {
      ok := WriteOut();
      if !ok {
        return;
      }
      available, offset := 0, 0;
      assert buffer[..available] == [];
    }

    /** `write_char` */
    method WriteChar(c: Byte) returns (ok: bool)
      requires Valid()
      modifies this, buffer
      ensures Told()
      ensures ok ==> Valid() && emitted == old(emitted) + [c]
      ensures !ok ==> emitted == old(emitted) && Faulty(script)
    {
      if available >= bufsize {
        ok := Flush();
        if !ok {
          return;
        }
      }
      buffer[offset] := c;
      available := available + 1;
      offset := offset + 1;
      emitted := emitted + [c];
      return true;
    }
  }

  /** One round of the loop of `copy_line`. */
  method CopyChar(src: InFile, dst: OutFile) returns (ok: bool, more: bool)
    requires src.Valid() && dst.Valid() && src.buffer != dst.buffer && src.status != ReadEnded
    modifies src, src.buffer, dst, dst.buffer
    ensures dst.Told()
    ensures ok ==> src.Valid() && dst.Valid()
    ensures !ok ==> dst.emitted == old(dst.emitted) && (Faulty(src.script) || Faulty(dst.script))
    ensures ok && old(src.Rest()) == [] ==>
      src.Rest() == [] && src.status == ReadEnded && !more && dst.emitted == old(dst.emitted)
    ensures ok && old(src.Rest()) != [] ==>
      && src.Rest() == old(src.Rest())[1..] && src.status != ReadEnded && more == (old(src.Rest())[0] != NEWLINE)
      && dst.emitted == old(dst.emitted) + [old(src.Rest())[0]]
  {
    ghost var rest := src.Rest();
    var c;
    ok, c := src.ReadChar();
    if !ok {
      return false, false;
    }
    if src.status != ReadEnded {
      ok := dst.WriteChar(c);
      if !ok {
        return false, false;
      }
    }
    more := src.status != ReadEnded && c != NEWLINE;
  }

  /** The same, seen from a position in the file. */
  method CopyOne(src: InFile, dst: OutFile, ghost rest: seq<Byte>, ghost p: nat, ghost start: seq<Byte>)
    returns (ok: bool, more: bool)
    requires src.Valid() && dst.Valid() && src.buffer != dst.buffer && src.status != ReadEnded
    requires p <= |rest| && src.Rest() == rest[p..] && dst.emitted == start + rest[..p]
    modifies src, src.buffer, dst, dst.buffer
    ensures dst.Told()
    ensures ok ==> src.Valid() && dst.Valid()
    ensures !ok ==> dst.emitted == start + rest[..p] && (Faulty(src.script) || Faulty(dst.script))
    ensures ok && p == |rest| ==>
      src.Rest() == rest[p..] && src.status == ReadEnded && !more && dst.emitted == start + rest[..p]
    ensures ok && p < |rest| ==>
      && src.Rest() == rest[p + 1..] && src.status != ReadEnded && more == (rest[p] != NEWLINE)
      && dst.emitted == start + rest[..p + 1]
  {
    ok, more := CopyChar(src, dst);
    if p < |rest| {
      assert rest[p..][0] == rest[p] && rest[p..][1..] == rest[p + 1..];
      assert start + rest[..p] + [rest[p]] == start + rest[..p + 1];
    }
  }

  /** The first line of s ends at `end`. */
  ghost predicate EndsAt(s: seq<Byte>, end: nat) {
    && end <= |s| && (s != [] ==> end > 0)
    && (forall q :: 0 <= q < end - 1 ==> s[q] != NEWLINE)
    && (end < |s| ==> end > 0 && s[end - 1] == NEWLINE)
  }

  lemma {:induction false} LineEnd(s: seq<Byte>)
    ensures var end := |FirstLine(s)|; EndsAt(s, end) && FirstLine(s) == s[..end] && AfterLine(s) == s[end..]
  {
    if s != [] && s[0] != NEWLINE {
      LineEnd(s[1..]);
      forall q | 0 <= q < |FirstLine(s)| - 1 ensures s[q] != NEWLINE {
        if q > 0 {
          assert s[q] == s[1..][q - 1];
        }
      }
    }
  }

  /** The loop of `copy_line`, for a line that ends at `end`. */
  method CopyUpTo(src: InFile, dst: OutFile, ghost rest: seq<Byte>, ghost end: nat) returns (ok: bool)
    requires src.Valid() && dst.Valid() && src.buffer != dst.buffer && src.status != ReadEnded
    requires src.Rest() == rest && EndsAt(rest, end)
    modifies src, src.buffer, dst, dst.buffer
    ensures dst.Told()
    ensures !ok ==> dst.emitted <= old(dst.emitted) + rest[..end] && (Faulty(src.script) || Faulty(dst.script))
    ensures ok ==> src.Valid() && dst.Valid()
    ensures ok ==> dst.emitted == old(dst.emitted) + rest[..end] && src.Rest() == rest[end..]
    ensures ok && rest == [] ==> src.status == ReadEnded
  {
    ghost var p, start := 0, dst.emitted;
    assert rest[0..] == rest && start + rest[..0] == start;
    var more := true;
    while more
      invariant src.Valid() && dst.Valid()
      invariant 0 <= p <= end && src.Rest() == rest[p..] && dst.emitted == start + rest[..p]
      invariant more ==> (p == end ==> end == |rest|) && src.status != ReadEnded
      invariant !more ==> p == end && (rest == [] ==> src.status == ReadEnded)
      decreases more, |rest| - p
    {
      ghost var q := if p < |rest| then p + 1 else p;
      ok, more := CopyOne(src, dst, rest, p, start);
      if !ok {
        assert start + rest[..p] <= start + rest[..end];
        return false;
      }
      p := q;
    }
    return true;
  }

  /** `copy_line`: the next line of `src` goes to `dst`; at its end, `src` is marked as ended. */
  method CopyLine(src: InFile, dst: OutFile) returns (ok: bool)
    requires src.Valid() && dst.Valid() && src.buffer != dst.buffer && src.status != ReadEnded
    modifies src, src.buffer, dst, dst.buffer
    ensures dst.Told()
    ensures !ok ==> Faulty(src.script) || Faulty(dst.script)
    ensures !ok ==> dst.emitted <= old(dst.emitted) + FirstLine(old(src.Rest()))
    ensures ok ==> src.Valid() && dst.Valid()
    ensures ok ==> dst.emitted == old(dst.emitted) + FirstLine(old(src.Rest()))
    ensures ok ==> src.Rest() == AfterLine(old(src.Rest()))
    ensures ok && old(src.Rest()) == [] ==> src.status == ReadEnded
  {
    ghost var rest := src.Rest();
    LineEnd(rest);
    ok := CopyUpTo(src, dst, rest, |FirstLine(rest)|);
  }

  // -------------------------------------------------------------- all the files

  /** Every file has its own buffer. */
  ghost predicate Apart(files: seq<InFile>, out: OutFile) {
    && (forall j, k :: 0 <= j < k < |files| ==> files[j] != files[k] && files[j].buffer != files[k].buffer)
    && (forall k :: 0 <= k < |files| ==> files[k].buffer != out.buffer)
  }

  /** `rests[k]` is left of file k, and it has not ended if `live[k]`. */
  ghost predicate Shows(f: InFile, rest: seq<Byte>, live: bool)
    reads f, f.buffer
  {
    f.Valid() && f.Rest() == rest && live == (f.status != ReadEnded)
  }

  ghost predicate Tracks(files: seq<InFile>, rests: seq<seq<Byte>>, live: seq<bool>)
    reads files, set f | f in files :: f.buffer
  {
    && |rests| == |live| == |files|
    && (forall k :: 0 <= k < |files| ==> Shows(files[k], rests[k], live[k]))
    && (forall k :: 0 <= k < |files| && !live[k] ==> rests[k] == [])
  }

  function AllTrue(n: nat): (r: seq<bool>)
    ensures |r| == n && forall k :: 0 <= k < n ==> r[k]
  {
    seq(n, _ => true)
  }

  function Live(live: seq<bool>): nat {
    if live == [] then 0 else (if live[0] then 1 else 0) + Live(live[1..])
  }

  /** Bytes left, and one for every file that has not ended. */
  ghost function Pending(rests: seq<seq<Byte>>, live: seq<bool>): nat
    requires |rests| == |live|
  {
    if rests == [] then 0 else (if live[0] then |rests[0]| + 1 else 0) + Pending(rests[1..], live[1..])
  }

  lemma {:induction false} LiveUpdate(live: seq<bool>, i: nat, l: bool)
    requires i < |live|
    ensures Live(live[i := l]) == Live(live) - (if live[i] then 1 else 0) + (if l then 1 else 0)
  {
    if i == 0 {
      assert live[i := l][1..] == live[1..];
    } else {
      LiveUpdate(live[1..], i - 1, l);
      assert live[i := l][1..] == live[1..][i - 1 := l];
    }
  }

  lemma {:induction false} SomeLive(live: seq<bool>) returns (k: nat)
    requires Live(live) > 0
    ensures k < |live| && live[k]
  {
    if live[0] {
      k := 0;
    } else {
      k := SomeLive(live[1..]);
      k := k + 1;
    }
  }

  lemma {:induction false} NoneLive(live: seq<bool>, k: nat)
    requires Live(live) == 0 && k < |live|
    ensures !live[k]
  {
    if k > 0 {
      NoneLive(live[1..], k - 1);
    }
  }

  lemma {:induction false} PendingUpdate(rests: seq<seq<Byte>>, live: seq<bool>, i: nat, r: seq<Byte>, l: bool)
    requires |rests| == |live| && i < |rests|
    ensures Pending(rests[i := r], live[i := l]) ==
            Pending(rests, live) - (if live[i] then |rests[i]| + 1 else 0) + (if l then |r| + 1 else 0)
  {
    if i == 0 {
      assert live[i := l][1..] == live[1..] && rests[i := r][1..] == rests[1..];
    } else {
      PendingUpdate(rests[1..], live[1..], i - 1, r, l);
      assert live[i := l][1..] == live[1..][i - 1 := l] && rests[i := r][1..] == rests[1..][i - 1 := r];
    }
  }

  /** The body of the loop of `shuffle_lines` for a file that has not ended. */
  method NextLine(files: seq<InFile>, out: OutFile, i: nat, ghost rests: seq<seq<Byte>>, ghost live: seq<bool>)
    returns (ok: bool)
    requires i < |files| && Apart(files, out) && Tracks(files, rests, live) && live[i] && out.Valid()
    modifies files[i], files[i].buffer, out, out.buffer
    ensures out.Told()
    ensures !ok ==> out.emitted <= old(out.emitted) + FirstLine(rests[i])
    ensures !ok ==> Faulty(files[i].script) || Faulty(out.script)
    ensures ok ==> out.Valid() && out.emitted == old(out.emitted) + FirstLine(rests[i])
    ensures ok ==> Tracks(files, rests[i := AfterLine(rests[i])], live[i := files[i].status != ReadEnded])
    ensures ok && rests[i] == [] ==> files[i].status == ReadEnded
  {
    assert Shows(files[i], rests[i], live[i]);
    ok := CopyLine(files[i], out);
    if ok {
      ghost var rests', live' := rests[i := AfterLine(rests[i])], live[i := files[i].status != ReadEnded];
      forall k | 0 <= k < |files| ensures Shows(files[k], rests'[k], live'[k]) && (!live'[k] ==> rests'[k] == []) {
        assert old(Shows(files[k], rests[k], live[k]));
      }
    }
  }

  /** Steps of `file_index` until it reaches `target`. */
  function Distance(i: nat, target: nat, n: nat): nat
    requires i < n && target < n
  {
    if i <= target then target - i else target + n - i
  }

  lemma DistanceShrinks(i: nat, target: nat, n: nat)
    requires i < n && target < n && i != target
    ensures Distance(After(i, n), target, n) < Distance(i, target, n)
  {
  }

  /** What has been emitted and what is to come make up the whole output. */
  ghost predicate Owed(all: seq<Byte>, emitted: seq<Byte>, rests: seq<seq<Byte>>, i: nat) {
    i <= |rests| && all == emitted + MergeFrom(rests, i)
  }

  lemma OwedNext(all: seq<Byte>, emitted: seq<Byte>, rests: seq<seq<Byte>>, i: nat)
    requires i < |rests| && Owed(all, emitted, rests, i)
    ensures Owed(all, emitted + FirstLine(rests[i]), rests[i := AfterLine(rests[i])], After(i, |rests|))
    ensures emitted + FirstLine(rests[i]) <= all
  {
    MergeNext(rests, i);
    assert all == emitted + FirstLine(rests[i]) + MergeFrom(rests[i := AfterLine(rests[i])], After(i, |rests|));
  }

  lemma OwedSkip(all: seq<Byte>, emitted: seq<Byte>, rests: seq<seq<Byte>>, i: nat)
    requires i < |rests| && Owed(all, emitted, rests, i) && rests[i] == []
    ensures Owed(all, emitted, rests, After(i, |rests|))
  {
    OwedNext(all, emitted, rests, i);
    assert rests[i := AfterLine(rests[i])] == rests;
    assert emitted + FirstLine(rests[i]) == emitted;
  }

  lemma OwedStart(contents: seq<seq<Byte>>)
    ensures Owed(Merge(contents), [], contents, 0)
  {
    RoundStarts(contents);
    assert Merge(contents) == [] + MergeFrom(contents, 0);
  }

  lemma OwedEnd(all: seq<Byte>, emitted: seq<Byte>, rests: seq<seq<Byte>>, live: seq<bool>, i: nat)
    requires Owed(all, emitted, rests, i) && |live| == |rests| && Live(live) == 0
    requires forall k :: 0 <= k < |rests| && !live[k] ==> rests[k] == []
    ensures emitted == all
  {
    forall k | 0 <= k < |rests| ensures rests[k] == [] {
      NoneLive(live, k);
    }
    Drained(rests, i);
  }

  /** One round of the loop of `shuffle_lines`. */
  method Visit(files: seq<InFile>, out: OutFile, i: nat, remaining: nat,
               ghost rests: seq<seq<Byte>>, ghost live: seq<bool>, ghost all: seq<Byte>)
    returns (ok: bool, remaining': nat, ghost rests': seq<seq<Byte>>, ghost live': seq<bool>)
    requires i < |files| && Apart(files, out) && Tracks(files, rests, live) && out.Valid() && remaining == Live(live)
    requires Owed(all, out.emitted, rests, i)
    modifies files[i], files[i].buffer, out, out.buffer
    ensures out.Told()
    ensures !ok ==> out.emitted <= all && (Faulty(files[i].script) || Faulty(out.script))
    ensures ok ==> Tracks(files, rests', live') && out.Valid() && remaining' == Live(live')
    ensures ok ==> Owed(all, out.emitted, rests', After(i, |files|))
    ensures ok && live[i] ==> Pending(rests', live') < Pending(rests, live)
    ensures !live[i] ==> ok && rests' == rests && live' == live && remaining' == remaining
  {
    remaining', rests', live' := remaining, rests, live;
    assert Shows(files[i], rests[i], live[i]);
    if files[i].status != ReadEnded {
      OwedNext(all, out.emitted, rests, i);
      ok := NextLine(files, out, i, rests, live);
      if !ok {
        return;
      }
      ghost var l := files[i].status != ReadEnded;
      LiveUpdate(live, i, l);
      PendingUpdate(rests, live, i, AfterLine(rests[i]), l);
      rests', live' := rests[i := AfterLine(rests[i])], live[i := l];
      if files[i].status == ReadEnded {
        remaining' := remaining' - 1;
      }
    } else {
      OwedSkip(all, out.emitted, rests, i);
      ok := true;
    }
  }

  /** No call on any of the files is going to fail. */
  ghost predicate Reliable(files: seq<InFile>, out: OutFile) {
    !Faulty(out.script) && forall k :: 0 <= k < |files| ==> !Faulty(files[k].script)
  }

  /**
   `shuffle_lines`: for every way reads and writes may be split, the output is the
   round-robin interleaving of the lines if and only if no write() returned 0. In every run
   it is that interleaving, or a beginning of it, without the stretches that were dropped,
   one for every write() that returned 0. false is exit(EXIT_FAILURE), which takes a failing call.
   */
  method ShuffleLines(files: seq<InFile>, out: OutFile, ghost contents: seq<seq<Byte>>) returns (ok: bool)
    requires Apart(files, out) && Tracks(files, contents, AllTrue(|files|))
    requires out.Valid() && out.emitted == []
    modifies files, set f | f in files :: f.buffer, out, out.buffer
    ensures ok ==> (out.sink == Merge(contents) <==> 0 !in out.answers)
    ensures 0 !in out.answers ==> out.sink <= Merge(contents)
    ensures out.Scripted() && out.sink == Written(out.pieces) && Drops(out.pieces) == Zeros(out.answers)
    ensures Given(out.pieces) <= Merge(contents) && (ok ==> Given(out.pieces) == Merge(contents))
    ensures |Merge(contents)| == Total(contents)
    ensures Reliable(files, out) ==> ok
  {
    MergeLength(contents);
    ok := VisitAll(files, out, contents);
    if ok {
      ok := out.Flush();
    }
    OutputSoFar(out, Merge(contents));
  }

  /** The loop of `shuffle_lines`. */
  method VisitAll(files: seq<InFile>, out: OutFile, ghost contents: seq<seq<Byte>>) returns (ok: bool)
    requires Apart(files, out) && Tracks(files, contents, AllTrue(|files|))
    requires out.Valid() && out.emitted == []
    modifies files, set f | f in files :: f.buffer, out, out.buffer
    ensures ok ==> out.Valid() && out.emitted == Merge(contents)
    ensures !ok ==> out.Told() && out.emitted <= Merge(contents) && !Reliable(files, out)
  {
    ghost var rests, live, all := contents, AllTrue(|files|), Merge(contents);
    AllLive(live);
    OwedStart(contents);
    var remaining: nat, i: nat := |files|, 0;
    ghost var target: nat := 0;
    while remaining > 0
      invariant Tracks(files, rests, live) && out.Valid() && remaining == Live(live)
      invariant remaining > 0 ==> i < |files| && target < |files| && live[target]
      invariant Owed(all, out.emitted, rests, i)
      decreases Pending(rests, live), if remaining > 0 then Distance(i, target, |files|) else 0
    {
      ghost var was := live[i];
      ok, remaining, rests, live := Visit(files, out, i, remaining, rests, live, all);
      if !ok {
        return;
      }
      if was && remaining > 0 {
        target := SomeLive(live);
      }
      if i != target {
        DistanceShrinks(i, target, |files|);
      }
      AfterIsMod(i, |files|);
      i := (i + 1) % |files|;
    }
    OwedEnd(all, out.emitted, rests, live, i);
    return true;
  }

  lemma OutputSoFar(out: OutFile, all: seq<Byte>)
    requires out.Told() && out.emitted <= all
    ensures Given(out.pieces) <= all
    ensures 0 !in out.answers ==> out.sink == Given(out.pieces)
    ensures 0 in out.answers ==> |out.sink| < |Given(out.pieces)|
  {
    NoZeros(out.answers);
    NoDrops(out.pieces);
  }

  /** A run whose first write() returns 0: it ends with success, and the output is not the interleaving. */
  method ZeroWrite() returns (ok: bool, out: OutFile, ghost contents: seq<seq<Byte>>)
    ensures ok && out.answers != [] && out.answers[0] == 0 && out.sink != Merge(contents)
  {
    var file := new InFile(1, [97], []);
    out := new OutFile(1, [0]);
    contents := [[97]];
    OneFile(file, [97]);
    ok := ShuffleLines([file], out, contents);
    OneByte(97);
    FirstRefused(out, Merge(contents));
  }

  lemma OneFile(file: InFile, rest: seq<Byte>)
    requires Shows(file, rest, true)
    ensures Tracks([file], [rest], AllTrue(1))
  {
  }

  lemma FirstRefused(out: OutFile, all: seq<Byte>)
    requires out.Scripted() && Refuses(out.script, 0) && all != [] && (out.sink == all <==> 0 !in out.answers)
    ensures out.answers != [] && out.answers[0] == 0 && out.sink != all
  {
  }

  lemma OneByte(b: Byte)
    ensures Total([[b]]) == 1
  {
    assert [[b]][1..] == [];
  }

  lemma {:induction false} AllLive(live: seq<bool>)
    requires forall k :: 0 <= k < |live| ==> live[k]
    ensures Live(live) == |live|
  {
    if live != [] {
      AllLive(live[1..]);
    }
  }
}
