/** The recursive-descent parser of sh.c as it is written, and nulterminate. */
module Shell {
  import opened Common
  import opened ShellLex
  import opened ShellGrammar
  import opened ShellItems
  import opened ShellTrees
  import opened ShellOrder
  import opened ShellReading

  /** What `done` redirections and the parse of the rest make together. */
  ghost predicate RedirsSoFar(toks: seq<Token>, done: seq<Redirection>, rest: seq<Token>) {
    ParseRedirs(toks) ==
      match ParseRedirs(rest)
      case None => None
      case Some((rs, left)) => Some((done + rs, left))
  }

  lemma RedirsNext(toks: seq<Token>, done: seq<Redirection>, rest: seq<Token>)
    requires RedirsSoFar(toks, done, rest) && |rest| >= 2 && IsRedirOp(rest[0]) && rest[1].kind == 'a'
    ensures RedirsSoFar(toks, done + [Redirection(rest[0], rest[1])], rest[2..])
  {
    var r := Redirection(rest[0], rest[1]);
    match ParseRedirs(rest[2..])
    case None =>
    case Some((rs, left)) => assert done + ([r] + rs) == done + [r] + rs;
  }

  /** The body of the loop of `parseredirs`. */
  method OneRedirection(line: seq<char>, s: nat) returns (ok: bool, r: Redirect, s': nat)
    requires IsLine(line) && s <= |line| && Lex(line, s) != [] && IsRedirOp(Lex(line, s)[0])
    ensures s' <= |line| && ok == (|Lex(line, s)| >= 2 && Lex(line, s)[1].kind == 'a')
    ensures ok ==> r == RedirectOf(Redirection(Lex(line, s)[0], Lex(line, s)[1])) && Lex(line, s') == Lex(line, s)[2..]
  {
    ghost var toks := Lex(line, s);
    var tok, q0, e0, s1 := GetToken(line, s);
    var kind, q, eq, s2 := GetToken(line, s1);
    assert |toks| >= 2 ==> toks[1..][0] == toks[1] && toks[1..][1..] == toks[2..];
    ok, r, s' := kind == 'a', Redirect(Span(q, eq), tok != '<'), s2;
  }

  /** `parseredirs`: the redirections, which the caller wraps around its command; false is a panic. */
  method ParseRedirections(line: seq<char>, s: nat) returns (ok: bool, rs: seq<Redirect>, s': nat)
    requires IsLine(line) && s <= |line|
    ensures s' <= |line| && ok == ParseRedirs(Lex(line, s)).Some?
    ensures ok ==>
      rs == Redirects(ParseRedirs(Lex(line, s)).value.0) && Lex(line, s') == ParseRedirs(Lex(line, s)).value.1
  {
    ghost var toks, done := Lex(line, s), [];
    rs, s' := [], s;
    var more;
    more, s' := Peek(line, s', "<>");
    assert RedirsSoFar(toks, done, toks) by {
      if ParseRedirs(toks).Some? {
        assert [] + ParseRedirs(toks).value.0 == ParseRedirs(toks).value.0;
      }
    }
    while more
      invariant s' <= |line| && RedirsSoFar(toks, done, Lex(line, s')) && rs == Redirects(done)
      invariant more == Starts(Lex(line, s'), "<>")
      decreases |Lex(line, s')|
    {
      ghost var rest := Lex(line, s');
      var r;
      ok, r, s' := OneRedirection(line, s');
      if !ok {
        return false, [], s';
      }
      RedirsNext(toks, done, rest);
      RedirsSnoc(done, Redirection(rest[0], rest[1]));
      done, rs := done + [Redirection(rest[0], rest[1])], rs + [r];
      more, s' := Peek(line, s', "<>");
    }
    assert ParseRedirs(Lex(line, s')) == Some(([], Lex(line, s')));
    assert done + [] == done;
    return true, rs, s';
  }

  /** One round of the loop of `parseexec`: a word and the redirections after it. */
  method OneArgument(line: seq<char>, s: nat, argv: seq<Span>, redirs: seq<Redirect>, ghost toks: seq<Token>,
                     ghost done: seq<Item>)
    returns (ok: bool, end: bool, argv': seq<Span>, redirs': seq<Redirect>, s': nat, ghost done': seq<Item>)
    requires IsLine(line) && s <= |line| && !Starts(Lex(line, s), "|)&;")
    requires ItemsSoFar(toks, done, |argv|, Lex(line, s)) && (Lex(line, s) != [] ==> !IsRedirOp(Lex(line, s)[0]))
    requires argv == Args(done) && redirs == Tos(done)
    ensures s' <= |line|
    ensures !ok ==> ParseItems(toks, 0).None?
    ensures ok && end ==> Lex(line, s) == [] && s' == |line| && argv' == argv && redirs' == redirs && done' == done
    ensures ok && !end ==>
      && ItemsSoFar(toks, done', |argv'|, Lex(line, s')) && |Lex(line, s')| < |Lex(line, s)|
      && argv' == Args(done') && redirs' == Tos(done')
      && (Lex(line, s') != [] ==> !IsRedirOp(Lex(line, s')[0]))
  {
    ghost var rest := Lex(line, s);
    argv', redirs', done' := argv, redirs, done;
    var tok, q, eq, s1 := GetToken(line, s);
    if tok == NUL {
      return true, true, argv', redirs', s1, done';
    }
    if tok != 'a' {
      return false, false, argv', redirs', s1, done';
    }
    ItemsArg(toks, done, |argv|, rest);
    if |argv| + 1 >= MAXARGS {
      return false, false, argv', redirs', s1, done';
    }
    PartsArg(done, rest[0]);
    done', argv' := done + [Arg(rest[0])], argv + [Span(q, eq)];
    ItemsRedirs(toks, done', |argv'|, Lex(line, s1));
    var rs;
    ok, rs, s' := ParseRedirections(line, s1);
    end := false;
    if ok {
      ghost var rl := ParseRedirs(Lex(line, s1)).value.0;
      PartsRedirs(done', rl);
      done', redirs' := done' + ToItems(rl), redirs + rs;
    }
  }

  /** `parseexec` for a command that is not a block; None is a panic. */
  method ParseWords(line: seq<char>, s: nat) returns (r: Option<Cmd>, s': nat)
    requires IsLine(line) && s <= |line|
    ensures s' <= |line| && r.Some? == ParseItems(Lex(line, s), 0).Some?
    ensures r.Some? ==>
      var (items, rest) := ParseItems(Lex(line, s), 0).value;
      r.value == Wrap(Exec(Args(items)), Tos(items)) && Lex(line, s') == rest
  {
    ghost var toks, done := Lex(line, s), [];
    ItemsStart(toks);
    ItemsRedirs(toks, done, 0, toks);
    var argv: seq<Span>, ok, redirs := [], true, [];
    ok, redirs, s' := ParseRedirections(line, s);
    if !ok {
      return None, s';
    }
    ghost var rl := ParseRedirs(toks).value.0;
    PartsRedirs(done, rl);
    done := done + ToItems(rl);
    assert [] + Redirects(rl) == Redirects(rl);
    var stop;
    stop, s' := Peek(line, s', "|)&;");
    while !stop
      invariant s' <= |line| && ItemsSoFar(toks, done, |argv|, Lex(line, s'))
      invariant argv == Args(done) && redirs == Tos(done)
      invariant Lex(line, s') != [] ==> !IsRedirOp(Lex(line, s')[0])
      invariant stop == Starts(Lex(line, s'), "|)&;")
      decreases |Lex(line, s')|
    {
      var end;
      ok, end, argv, redirs, s', done := OneArgument(line, s', argv, redirs, toks, done);
      if !ok {
        return None, s';
      }
      if end {
        break;
      }
      stop, s' := Peek(line, s', "|)&;");
    }
    assert StopsItems(Lex(line, s'));
    assert done + [] == done;
    return Some(Wrap(Exec(argv), redirs)), s';
  }

  /** The tokens in front of the rest. */
  ghost function Consumed(toks: seq<Token>, rest: seq<Token>): seq<Token>
    requires |rest| <= |toks|
  {
    toks[..|toks| - |rest|]
  }

  lemma ConsumedText(text: seq<Token>, rest: seq<Token>)
    ensures Consumed(text + rest, rest) == text
  {
  }

  lemma SimpleConsumed(toks: seq<Token>)
    requires ParseSimple(toks).Some?
    ensures var (s, rest) := ParseSimple(toks).value; ReadsSimple(TreeSimple(s), Consumed(toks, rest))
  {
    var (s, rest) := ParseSimple(toks).value;
    SoundSimple(toks);
    SimpleReads(s);
    ConsumedText(TextSimple(s), rest);
  }

  lemma PipeConsumed(toks: seq<Token>)
    requires ParsePipe(toks).Some?
    ensures var (p, rest) := ParsePipe(toks).value; ReadsPipe(TreePipe(p), Consumed(toks, rest))
  {
    var (p, rest) := ParsePipe(toks).value;
    SoundPipe(toks);
    PipeReads(p);
    ConsumedText(TextPipe(p), rest);
  }

  lemma LineConsumed(toks: seq<Token>)
    requires ParseLine(toks).Some?
    ensures var (l, rest) := ParseLine(toks).value; ReadsLine(TreeLine(l), Consumed(toks, rest))
  {
    var (l, rest) := ParseLine(toks).value;
    SoundLine(toks);
    LineReads(l);
    ConsumedText(TextLine(l), rest);
  }

  // ------------------------------------------------------- the recursive descent

  /** The end of `parseblock`: the closing parenthesis and the redirections of the block. */
  method CloseBlock(line: seq<char>, s: nat, cmd: Cmd) returns (r: Option<Cmd>, s': nat)
    requires IsLine(line) && s <= |line|
    ensures s' <= |line|
    ensures r.Some? == (Lex(line, s) != [] && Lex(line, s)[0].kind == ')' && ParseRedirs(Lex(line, s)[1..]).Some?)
    ensures r.Some? ==>
      var (rs, rest) := ParseRedirs(Lex(line, s)[1..]).value;
      r.value == Wrap(cmd, Redirects(rs)) && Lex(line, s') == rest
  {
    var close;
    close, s' := Peek(line, s, ")");
    if !close {
      return None, s';
    }
    var tok, q, eq, s1 := GetToken(line, s');
    var ok, rs;
    ok, rs, s' := ParseRedirections(line, s1);
    if !ok {
      return None, s';
    }
    return Some(Wrap(cmd, rs)), s';
  }

  /** `parseblock`; None is a panic. */
  method ParseBlock(line: seq<char>, s: nat) returns (r: Option<Cmd>, s': nat)
    requires IsLine(line) && s <= |line| && Starts(Lex(line, s), "(")
    ensures s' <= |line| && r.Some? == ParseSimple(Lex(line, s)).Some?
    ensures r.Some? ==>
      r.value == TreeSimple(ParseSimple(Lex(line, s)).value.0) && Lex(line, s') == ParseSimple(Lex(line, s)).value.1
    decreases |Lex(line, s)|, 0
  {
    var tok, q, eq, s1 := GetToken(line, s);
    r, s' := ParseLineAt(line, s1);
    if r.Some? {
      r, s' := CloseBlock(line, s', r.value);
    }
  }

  /** `parseexec` */
  method ParseExec(line: seq<char>, s: nat) returns (r: Option<Cmd>, s': nat)
    requires IsLine(line) && s <= |line|
    ensures s' <= |line| && r.Some? == ParseSimple(Lex(line, s)).Some?
    ensures r.Some? ==>
      r.value == TreeSimple(ParseSimple(Lex(line, s)).value.0) && Lex(line, s') == ParseSimple(Lex(line, s)).value.1
    ensures r.Some? ==>
      |Lex(line, s')| <= |Lex(line, s)| && ReadsSimple(r.value, Consumed(Lex(line, s), Lex(line, s')))
    decreases |Lex(line, s)|, 1
  {
    if ParseSimple(Lex(line, s)).Some? {
      SimpleConsumed(Lex(line, s));
    }
    var block, s1 := Peek(line, s, "(");
    if block {
      r, s' := ParseBlock(line, s1);
    } else {
      r, s' := ParseWords(line, s1);
    }
  }

  /** `parsepipe` */
  method ParsePipeAt(line: seq<char>, s: nat) returns (r: Option<Cmd>, s': nat)
    requires IsLine(line) && s <= |line|
    ensures s' <= |line| && r.Some? == ParsePipe(Lex(line, s)).Some?
    ensures r.Some? ==>
      r.value == TreePipe(ParsePipe(Lex(line, s)).value.0) && Lex(line, s') == ParsePipe(Lex(line, s)).value.1
    ensures r.Some? ==>
      |Lex(line, s')| <= |Lex(line, s)| && ReadsPipe(r.value, Consumed(Lex(line, s), Lex(line, s')))
    decreases |Lex(line, s)|, 2
  {
    if ParsePipe(Lex(line, s)).Some? {
      PipeConsumed(Lex(line, s));
    }
    r, s' := ParseExec(line, s);
    if r.None? {
      return;
    }
    var left, bar := r.value, false;
    bar, s' := Peek(line, s', "|");
    if bar {
      var tok, q, eq, s1 := GetToken(line, s');
      r, s' := ParsePipeAt(line, s1);
      if r.Some? {
        r := Some(Pipe(left, r.value));
      }
    }
  }

  /** The loop of `parseline` over &. */
  method ParseAmpersands(line: seq<char>, s: nat, c: Cmd) returns (cmd: Cmd, s': nat)
    requires IsLine(line) && s <= |line|
    ensures s' <= |line|
    ensures var (bs, rest) := ParseBacks(Lex(line, s)); cmd == Backs(c, |bs|) && Lex(line, s') == rest
  {
    ghost var toks, n := Lex(line, s), 0;
    cmd := c;
    var more;
    more, s' := Peek(line, s, "&");
    while more
      invariant s' <= |line| && n <= |ParseBacks(toks).0| && cmd == Backs(c, n)
      invariant more == Starts(Lex(line, s'), "&")
      invariant |ParseBacks(toks).0| == n + |ParseBacks(Lex(line, s')).0|
      invariant ParseBacks(toks).1 == ParseBacks(Lex(line, s')).1
      decreases |Lex(line, s')|
    {
      var tok, q, eq, s1 := GetToken(line, s');
      BacksSnoc(c, n);
      cmd, n := Back(cmd), n + 1;
      more, s' := Peek(line, s1, "&");
    }
  }

  /** `parseline` */
  method ParseLineAt(line: seq<char>, s: nat) returns (r: Option<Cmd>, s': nat)
    requires IsLine(line) && s <= |line|
    ensures s' <= |line| && r.Some? == ParseLine(Lex(line, s)).Some?
    ensures r.Some? ==>
      r.value == TreeLine(ParseLine(Lex(line, s)).value.0) && Lex(line, s') == ParseLine(Lex(line, s)).value.1
    ensures r.Some? ==>
      |Lex(line, s')| <= |Lex(line, s)| && ReadsLine(r.value, Consumed(Lex(line, s), Lex(line, s')))
    decreases |Lex(line, s)|, 3
  {
    if ParseLine(Lex(line, s)).Some? {
      LineConsumed(Lex(line, s));
    }
    r, s' := ParsePipeAt(line, s);
    if r.None? {
      return;
    }
    var cmd, semi := r.value, false;
    cmd, s' := ParseAmpersands(line, s', cmd);
    semi, s' := Peek(line, s', ";");
    if semi {
      var tok, q, eq, s1 := GetToken(line, s');
      r, s' := ParseLineAt(line, s1);
      if r.Some? {
        r := Some(List(cmd, r.value));
      }
    } else {
      r := Some(cmd);
    }
  }

  // ---------------------------------------------------------------- nulterminate

  /** Some string of the tree ends at position k. */
  ghost predicate EndsAt(cmd: Cmd, k: nat) {
    match cmd
    case Exec(argv) => exists i :: 0 <= i < |argv| && argv[i].end == k
    case Redir(c, r) => EndsAt(c, k) || r.file.end == k
    case Pipe(l, r) => EndsAt(l, k) || EndsAt(r, k)
    case List(l, r) => EndsAt(l, k) || EndsAt(r, k)
    case Back(c) => EndsAt(c, k)
  }

  ghost predicate Fits(cmd: Cmd, n: nat) {
    match cmd
    case Exec(argv) => forall i :: 0 <= i < |argv| ==> argv[i].end < n
    case Redir(c, r) => Fits(c, n) && r.file.end < n
    case Pipe(l, r) => Fits(l, n) && Fits(r, n)
    case List(l, r) => Fits(l, n) && Fits(r, n)
    case Back(c) => Fits(c, n)
  }

  /** `nulterminate`: the byte after every string becomes NUL, and no other byte changes. */
  method Nulterminate(cmd: Cmd, buf: array<char>)
    requires Fits(cmd, buf.Length)
    modifies buf
    ensures forall k :: 0 <= k < buf.Length ==> buf[k] == if EndsAt(cmd, k) then NUL else old(buf[k])
    decreases cmd
  {
    match cmd
    case Exec(argv) =>
      for i := 0 to |argv|
        invariant forall k :: 0 <= k < buf.Length ==>
          buf[k] == if exists j :: 0 <= j < i && argv[j].end == k then NUL else old(buf[k])
      {
        buf[argv[i].end] := NUL;
      }
    case Redir(c, r) =>
      Nulterminate(c, buf);
      buf[r.file.end] := NUL;
    case Pipe(l, r) =>
      Nulterminate(l, buf);
      Nulterminate(r, buf);
    case List(l, r) =>
      Nulterminate(l, buf);
      Nulterminate(r, buf);
    case Back(c) =>
      Nulterminate(c, buf);
  }

  lemma {:induction false} EndIsSpan(cmd: Cmd, k: nat) returns (sp: Span)
    requires EndsAt(cmd, k)
    ensures sp in Spans(cmd) && sp.end == k
  {
    match cmd
    case Exec(argv) =>
      var i :| 0 <= i < |argv| && argv[i].end == k;
      sp := argv[i];
    case Redir(c, r) =>
      if r.file.end == k {
        sp := r.file;
      } else {
        sp := EndIsSpan(c, k);
      }
    case Pipe(l, r) =>
      if EndsAt(l, k) {
        sp := EndIsSpan(l, k);
      } else {
        sp := EndIsSpan(r, k);
      }
    case List(l, r) =>
      if EndsAt(l, k) {
        sp := EndIsSpan(l, k);
      } else {
        sp := EndIsSpan(r, k);
      }
    case Back(c) =>
      sp := EndIsSpan(c, k);
  }

  lemma {:induction false} SpanIsEnd(cmd: Cmd, sp: Span)
    requires sp in Spans(cmd)
    ensures EndsAt(cmd, sp.end)
  {
    match cmd
    case Exec(argv) => assert sp in argv;
    case Redir(c, r) =>
      if sp != r.file {
        SpanIsEnd(c, sp);
      }
    case Pipe(l, r) =>
      if sp in Spans(l) {
        SpanIsEnd(l, sp);
      } else {
        SpanIsEnd(r, sp);
      }
    case List(l, r) =>
      if sp in Spans(l) {
        SpanIsEnd(l, sp);
      } else {
        SpanIsEnd(r, sp);
      }
    case Back(c) => SpanIsEnd(c, sp);
  }

  lemma {:induction false} AllFit(cmd: Cmd, n: nat)
    requires forall sp :: sp in Spans(cmd) ==> sp.end < n
    ensures Fits(cmd, n)
  {
    match cmd
    case Exec(argv) =>
      forall i | 0 <= i < |argv| ensures argv[i].end < n {
        assert argv[i] in Spans(cmd);
      }
    case Redir(c, r) =>
      assert r.file in Spans(cmd);
      AllFit(c, n);
    case Pipe(l, r) =>
      AllFit(l, n);
      AllFit(r, n);
    case List(l, r) =>
      AllFit(l, n);
      AllFit(r, n);
    case Back(c) => AllFit(c, n);
  }

  // -------------------------------------------------------------------- parsecmd

  /** The tokens are those of some well-formed line. */
  ghost predicate Sentence(toks: seq<Token>) {
    exists l :: WfLine(l) && TextLine(l) == toks
  }

  /** A line is accepted if and only if it is a sentence, and its tree is that of the only derivation. */
  lemma AcceptedIff(toks: seq<Token>)
    ensures (ParseLine(toks).Some? && ParseLine(toks).value.1 == []) <==> Sentence(toks)
    ensures forall l :: WfLine(l) && TextLine(l) == toks ==> ParseLine(toks) == Some((l, []))
  {
    if ParseLine(toks).Some? && ParseLine(toks).value.1 == [] {
      SoundLine(toks);
      var l := ParseLine(toks).value.0;
      assert TextLine(l) + [] == TextLine(l);
    }
    forall l | WfLine(l) && TextLine(l) == toks ensures ParseLine(toks) == Some((l, [])) {
      CompleteLine(l, []);
      assert TextLine(l) + [] == toks;
    }
  }

  lemma LexSorted(line: seq<char>, s: nat)
    requires s <= |line|
    ensures Sorted(Lex(line, s))
  {
    var toks := Lex(line, s);
    forall i, j | 0 <= i < j < |toks| ensures toks[i].end <= toks[j].start {
      LexBefore(line, s, i, j);
    }
  }

  lemma {:induction false} LexBefore(line: seq<char>, s: nat, i: nat, j: nat)
    requires s <= |line| && i < j < |Lex(line, s)|
    ensures Lex(line, s)[i].end <= Lex(line, s)[j].start
    decreases j
  {
    LexApart(line, s, j);
    if i < j - 1 {
      LexBefore(line, s, i, j - 1);
      LexApart(line, s, j - 1);
    }
  }

  /** The C string at the start of the span is the text of the token. */
  ghost predicate Terminated(buf: seq<char>, line: seq<char>, sp: Span) {
    && sp.start < sp.end <= |line| < |buf|
    && buf[sp.start..sp.end] == line[sp.start..sp.end] && buf[sp.end] == NUL
  }

  /** The end of a word is never inside a word. */
  ghost predicate Separate(line: seq<char>, sp: Span, sq: Span) {
    sp.start < sp.end <= |line| && sq.end <= |line| && !(sp.start <= sq.end < sp.end)
  }

  ghost predicate AllSeparate(line: seq<char>, words: seq<Span>) {
    forall sp, sq :: sp in words && sq in words ==> Separate(line, sp, sq)
  }

  lemma WordsSeparate(line: seq<char>)
    ensures AllSeparate(line, WordsOf(Lex(line, 0)))
  {
    var toks := Lex(line, 0);
    forall sp, sq | sp in WordsOf(toks) && sq in WordsOf(toks) ensures Separate(line, sp, sq) {
      var i := WordFrom(toks, sp);
      var j := WordFrom(toks, sq);
      LexWord(line, 0, i);
      LexWord(line, 0, j);
    }
  }

  lemma EndIsWord(cmd: Cmd, words: seq<Span>, k: nat) returns (sq: Span)
    requires EndsAt(cmd, k) && Spans(cmd) == multiset(words)
    ensures sq in words && sq.end == k
  {
    sq := EndIsSpan(cmd, k);
    assert sq in multiset(words);
  }

  lemma StringKept(cmd: Cmd, line: seq<char>, words: seq<Span>, buf: seq<char>, sp: Span)
    requires Spans(cmd) == multiset(words) && AllSeparate(line, words) && |buf| == |line| + 1 && sp in words
    requires forall k :: 0 <= k < |buf| ==> buf[k] == if EndsAt(cmd, k) then NUL else CharAt(line, k)
    ensures Terminated(buf, line, sp)
  {
    assert Separate(line, sp, sp);
    SpanIsEnd(cmd, sp);
    forall k | sp.start <= k < sp.end ensures buf[k] == line[k] {
      if EndsAt(cmd, k) {
        var sq := EndIsWord(cmd, words, k);
        assert false;
      }
    }
  }

  lemma AllTerminated(cmd: Cmd, line: seq<char>, words: seq<Span>, buf: seq<char>)
    requires Spans(cmd) == multiset(words) && AllSeparate(line, words) && |buf| == |line| + 1
    requires forall k :: 0 <= k < |buf| ==> buf[k] == if EndsAt(cmd, k) then NUL else CharAt(line, k)
    ensures Readable(cmd, line, buf)
  {
    forall sp | sp in Spans(cmd) ensures Terminated(buf, line, sp) {
      assert sp in words;
      StringKept(cmd, line, words, buf, sp);
    }
  }

  /** Every string of the tree is there. */
  ghost predicate Readable(cmd: Cmd, line: seq<char>, buf: seq<char>) {
    forall sp :: sp in Spans(cmd) ==> Terminated(buf, line, sp)
  }

  /** A tree that reads as these tokens, with no command too long. */
  ghost predicate TreeFor(cmd: Cmd, toks: seq<Token>) {
    ReadsLine(cmd, toks) && Short(cmd)
  }

  ghost predicate HasTree(toks: seq<Token>) {
    exists cmd :: TreeFor(cmd, toks)
  }

  /** There is a tree that reads as the line if and only if it is a sentence, and then only one. */
  lemma ReadingIff(toks: seq<Token>)
    ensures Sentence(toks) <==> HasTree(toks)
    ensures forall l :: WfLine(l) && TextLine(l) == toks ==> TreeFor(TreeLine(l), toks)
    ensures forall cmd, cmd' :: TreeFor(cmd, toks) && TreeFor(cmd', toks) ==> cmd == cmd'
  {
    AcceptedIff(toks);
    forall l | WfLine(l) && TextLine(l) == toks ensures TreeFor(TreeLine(l), toks) {
      LineReads(l);
      ShortLine(l);
    }
    forall cmd | TreeFor(cmd, toks) ensures Sentence(toks) && cmd == TreeLine(ParseLine(toks).value.0) {
      var l := FromLine(cmd, toks);
    }
  }

  /** The tree reads as the line, and holds every word of it exactly once and in order. */
  ghost predicate Faithful(cmd: Cmd, toks: seq<Token>) {
    && TreeFor(cmd, toks) && Spans(cmd) == multiset(WordsOf(toks)) && InOrder(cmd)
    && forall l :: WfLine(l) && TextLine(l) == toks ==> cmd == TreeLine(l)
  }

  /**
   `parsecmd` on the line in `buf`: a tree if and only if the whole line is a sentence, and then
   the only one that reads as the line. Every word is in the tree exactly once and in order, and
   its string in the buffer is its text. None is a panic, before the buffer is changed.
   */
  method ParseCmd(buf: array<char>) returns (r: Option<Cmd>)
    requires buf.Length > 0 && IsLine(buf[..buf.Length - 1]) && buf[buf.Length - 1] == NUL
    modifies buf
    ensures r.Some? <==> Sentence(Lex(old(buf[..buf.Length - 1]), 0))
    ensures r.Some? <==> HasTree(Lex(old(buf[..buf.Length - 1]), 0))
    ensures r.Some? ==> Faithful(r.value, Lex(old(buf[..buf.Length - 1]), 0))
    ensures r.Some? ==> Readable(r.value, old(buf[..buf.Length - 1]), buf[..])
    ensures r.None? ==> buf[..] == old(buf[..])
  {
    var line := buf[..buf.Length - 1];
    r := ParseWhole(line);
    if r.Some? {
      WordsSeparate(line);
      TreeFits(line, WordsOf(Lex(line, 0)), r.value);
      Nulterminate(r.value, buf);
      AllTerminated(r.value, line, WordsOf(Lex(line, 0)), buf[..]);
    }
  }

  /** `parsecmd` up to nulterminate. */
  method ParseWhole(line: seq<char>) returns (r: Option<Cmd>)
    requires IsLine(line)
    ensures r.Some? <==> Sentence(Lex(line, 0))
    ensures r.Some? <==> HasTree(Lex(line, 0))
    ensures r.Some? ==> Faithful(r.value, Lex(line, 0))
  {
    ghost var toks := Lex(line, 0);
    AcceptedIff(toks);
    ReadingIff(toks);
    var s;
    r, s := ParseLineAt(line, 0);
    if r.None? {
      return;
    }
    var found;
    found, s := Peek(line, s, "");
    if s != |line| {
      return None;
    }
    TreeFacts(toks);
    LexSorted(line, 0);
  }

  lemma TreeFits(line: seq<char>, words: seq<Span>, cmd: Cmd)
    requires Spans(cmd) == multiset(words) && AllSeparate(line, words)
    ensures Fits(cmd, |line| + 1)
  {
    var n := |line| + 1;
    forall sp | sp in Spans(cmd) ensures sp.end < n {
      assert sp in words;
      assert Separate(line, sp, sp);
    }
    AllFit(cmd, n);
  }

  /** What is known of the tree of an accepted line. */
  lemma TreeFacts(toks: seq<Token>)
    requires ParseLine(toks).Some? && ParseLine(toks).value.1 == []
    ensures Spans(TreeLine(ParseLine(toks).value.0)) == multiset(WordsOf(toks))
    ensures Sorted(toks) ==> InOrder(TreeLine(ParseLine(toks).value.0))
  {
    var l := ParseLine(toks).value.0;
    SoundLine(toks);
    assert TextLine(l) + [] == TextLine(l);
    LineWords(l);
    if Sorted(toks) {
      OrderLine(l);
    }
  }
}
