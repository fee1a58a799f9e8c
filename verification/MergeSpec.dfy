/** The round-robin interleaving of lines that merge_files promises. */
module MergeSpec {
  import opened Common

  const NEWLINE: Byte := 10

  /** The first line with its newline, or what there is of it. */
  function FirstLine(s: seq<Byte>): (r: seq<Byte>)
    ensures r <= s && (s != [] ==> r != [])
  {
    if s == [] then [] else if s[0] == NEWLINE then [s[0]] else [s[0]] + FirstLine(s[1..])
  }

  function AfterLine(s: seq<Byte>): (r: seq<Byte>)
    ensures FirstLine(s) + r == s
  {
    s[|FirstLine(s)|..]
  }

  /** Up to the first newline and with it, or all there is when there is none. */
  lemma {:induction false} LineEnds(s: seq<Byte>)
    ensures forall i :: 0 <= i < |FirstLine(s)| - 1 ==> s[i] != 10
    ensures if 10 in s then FirstLine(s) != [] && FirstLine(s)[|FirstLine(s)| - 1] == 10 else FirstLine(s) == s
  {
    if s != [] && s[0] != NEWLINE {
      LineEnds(s[1..]);
      assert s == [s[0]] + s[1..];
    }
  }

  /** Line k of a file, empty when it has no line k. */
  function Line(s: seq<Byte>, k: nat): seq<Byte> {
    if k == 0 then FirstLine(s) else Line(AfterLine(s), k - 1)
  }

  /** The first line of every file, in order. */
  function Heads(files: seq<seq<Byte>>): seq<Byte> {
    if files == [] then [] else FirstLine(files[0]) + Heads(files[1..])
  }

  function Tails(files: seq<seq<Byte>>): (r: seq<seq<Byte>>)
    ensures |r| == |files|
  {
    if files == [] then [] else [AfterLine(files[0])] + Tails(files[1..])
  }

  function Total(files: seq<seq<Byte>>): nat {
    if files == [] then 0 else |files[0]| + Total(files[1..])
  }

  lemma {:induction false} TailsShorter(files: seq<seq<Byte>>)
    ensures Total(Tails(files)) + |Heads(files)| == Total(files)
    ensures Total(files) > 0 ==> |Heads(files)| > 0
  {
    if files != [] {
      TailsShorter(files[1..]);
      assert Tails(files)[1..] == Tails(files[1..]);
      assert FirstLine(files[0]) + AfterLine(files[0]) == files[0];
    }
  }

  /** Round after round: one line of every file that still has one. */
  function Merge(files: seq<seq<Byte>>): seq<Byte>
    decreases Total(files)
  {
    if Total(files) == 0 then [] else (TailsShorter(files); Heads(files) + Merge(Tails(files)))
  }

  /** What is still to come when round has reached file i. */
  function MergeFrom(files: seq<seq<Byte>>, i: nat): seq<Byte>
    requires i <= |files|
  {
    Heads(files[i..]) + Merge(files[..i] + Tails(files[i..]))
  }

  lemma {:induction false} NothingLeft(files: seq<seq<Byte>>)
    requires Total(files) == 0
    ensures Heads(files) == [] && Tails(files) == files && forall i :: 0 <= i < |files| ==> files[i] == []
  {
    if files != [] {
      NothingLeft(files[1..]);
      assert files[0] == [];
      assert files == [files[0]] + files[1..];
    }
  }

  /** A round starts afresh at file 0 ... */
  lemma RoundStarts(files: seq<seq<Byte>>)
    ensures MergeFrom(files, 0) == Merge(files)
  {
    assert files[0..] == files;
    assert files[..0] + Tails(files) == Tails(files);
    if Total(files) == 0 {
      NothingLeft(files);
      assert Merge(files) == [];
    } else {
      assert Merge(files) == Heads(files) + Merge(Tails(files));
    }
  }

  /** ... and is over after the last file. */
  lemma RoundEnds(files: seq<seq<Byte>>)
    ensures MergeFrom(files, |files|) == Merge(files)
  {
    assert files[|files|..] == [];
    assert files[..|files|] + Tails([]) == files;
    assert Heads([]) + Merge(files) == Merge(files);
  }

  /** Copying the next line of file i. */
  lemma MergeStep(files: seq<seq<Byte>>, i: nat)
    requires i < |files|
    ensures MergeFrom(files, i) == FirstLine(files[i]) + MergeFrom(files[i := AfterLine(files[i])], i + 1)
  {
    var files', n := files[i := AfterLine(files[i])], i + 1;
    HeadsAndTails(files[i], files'[n..]);
    assert files[i..] == [files[i]] + files'[n..];
    assert files'[..n] == files[..i] + [AfterLine(files[i])];
    Regrouped(files[..i], [AfterLine(files[i])], Tails(files'[n..]));
    Regrouped(FirstLine(files[i]), Heads(files'[n..]), Merge(files'[..n] + Tails(files'[n..])));
  }

  lemma HeadsAndTails(f: seq<Byte>, rest: seq<seq<Byte>>)
    ensures Heads([f] + rest) == FirstLine(f) + Heads(rest) && Tails([f] + rest) == [AfterLine(f)] + Tails(rest)
  {
    assert ([f] + rest)[1..] == rest;
  }

  lemma Regrouped<T>(a: seq<T>, b: seq<T>, c: seq<T>)
    ensures a + b + c == a + (b + c)
  {
  }

  // ---------------------------------------------------- the same, line by line

  /** Line k of every file that has one, in order. */
  function Column(files: seq<seq<Byte>>, k: nat): seq<Byte> {
    if files == [] then [] else Line(files[0], k) + Column(files[1..], k)
  }

  /** Columns k, k + 1, ..., k + m - 1. */
  function Columns(files: seq<seq<Byte>>, k: nat, m: nat): seq<Byte>
    decreases m
  {
    if m == 0 then [] else Column(files, k) + Columns(files, k + 1, m - 1)
  }

  lemma {:induction false} ColumnShift(files: seq<seq<Byte>>, k: nat)
    ensures Column(files, k + 1) == Column(Tails(files), k)
  {
    if files != [] {
      ColumnShift(files[1..], k);
      assert Tails(files)[1..] == Tails(files[1..]);
    }
  }

  lemma {:induction false} ColumnHeads(files: seq<seq<Byte>>, k: nat)
    requires k == 0
    ensures Column(files, k) == Heads(files)
  {
    if files != [] {
      ColumnHeads(files[1..], k);
    }
  }

  lemma {:induction false} ColumnsShift(files: seq<seq<Byte>>, k: nat, m: nat)
    ensures Columns(files, k + 1, m) == Columns(Tails(files), k, m)
    decreases m
  {
    if m > 0 {
      ColumnShift(files, k);
      ColumnsShift(files, k + 1, m - 1);
    }
  }

  /** The output is all first lines, then all second lines, and so on. */
  lemma {:induction false} MergeIsColumns(files: seq<seq<Byte>>, m: nat)
    requires Total(files) <= m
    ensures Merge(files) == Columns(files, 0, m)
    decreases m
  {
    if m > 0 {
      TailsShorter(files);
      MergeIsColumns(Tails(files), m - 1);
      OneRound(files);
      FirstColumn(files, 0, m);
    }
  }

  lemma FirstColumn(files: seq<seq<Byte>>, k: nat, m: nat)
    requires m > 0 && k == 0
    ensures Columns(files, k, m) == Heads(files) + Columns(Tails(files), k, m - 1)
  {
    ColumnHeads(files, k);
    ColumnsShift(files, k, m - 1);
  }

  lemma OneRound(files: seq<seq<Byte>>)
    ensures Merge(files) == Heads(files) + Merge(Tails(files))
  {
    if Total(files) == 0 {
      NothingLeft(files);
    }
  }

  lemma {:induction false} MergeLength(files: seq<seq<Byte>>)
    ensures |Merge(files)| == Total(files)
    decreases Total(files)
  {
    if Total(files) > 0 {
      TailsShorter(files);
      MergeLength(Tails(files));
    }
  }

  lemma {:induction false} EmptyTotal(files: seq<seq<Byte>>)
    requires forall k :: 0 <= k < |files| ==> files[k] == []
    ensures Total(files) == 0
  {
    if files != [] {
      EmptyTotal(files[1..]);
    }
  }

  /** When every file is used up nothing is to come. */
  lemma Drained(files: seq<seq<Byte>>, i: nat)
    requires i <= |files| && forall k :: 0 <= k < |files| ==> files[k] == []
    ensures MergeFrom(files, i) == []
  {
    EmptyTotal(files[i..]);
    NothingLeft(files[i..]);
    EmptyTotal(files[..i] + Tails(files[i..]));
  }

  /** The index after i, round and round. */
  function After(i: nat, n: nat): (k: nat)
    requires i < n
    ensures k < n
  {
    if i + 1 == n then 0 else i + 1
  }

  lemma AfterIsMod(i: nat, n: nat)
    requires i < n
    ensures (i + 1) % n == After(i, n)
  {
    if i + 1 < n {
      assert (i + 1) / n == 0;
    }
  }

  lemma RoundWrap(files: seq<seq<Byte>>)
    ensures MergeFrom(files, |files|) == MergeFrom(files, 0)
  {
    RoundEnds(files);
    RoundStarts(files);
  }

  /** The position after file i. */
  lemma MergeNext(files: seq<seq<Byte>>, i: nat)
    requires i < |files|
    ensures var files' := files[i := AfterLine(files[i])];
            MergeFrom(files, i) == FirstLine(files[i]) + MergeFrom(files', After(i, |files|))
  {
    MergeStep(files, i);
    if i + 1 == |files| {
      RoundWrap(files[i := AfterLine(files[i])]);
    }
  }
}
