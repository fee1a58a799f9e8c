/** The words of a command tree are in the order of the line. */
module ShellOrder {
  import opened ShellLex
  import opened ShellGrammar
  import opened ShellTrees

  ghost predicate Sorted(toks: seq<Token>) {
    forall i, j :: 0 <= i < j < |toks| ==> toks[i].end <= toks[j].start
  }

  ghost predicate SortedSpans(s: seq<Span>) {
    forall i, j :: 0 <= i < j < |s| ==> s[i].end <= s[j].start
  }

  ghost predicate SortedFiles(rs: seq<Redirect>) {
    forall i, j :: 0 <= i < j < |rs| ==> rs[i].file.end <= rs[j].file.start
  }

  /** Everything in a comes before everything in b. */
  ghost predicate Before(a: multiset<Span>, b: multiset<Span>) {
    forall x, y :: x in a && y in b ==> x.end <= y.start
  }

  /**
   Arguments in order; of two redirections of one command the inner one first; the left of a
   pipe or list before the right.
   */
  ghost predicate InOrder(cmd: Cmd) {
    match cmd
    case Exec(argv) => SortedSpans(argv)
    case Redir(c, r) => InOrder(c) && (c.Redir? ==> c.redirect.file.end <= r.file.start)
    case Pipe(l, r) => InOrder(l) && InOrder(r) && Before(Spans(l), Spans(r))
    case List(l, r) => InOrder(l) && InOrder(r) && Before(Spans(l), Spans(r))
    case Back(c) => InOrder(c)
  }

  lemma {:induction false} WordFrom(toks: seq<Token>, sp: Span) returns (i: nat)
    requires sp in WordsOf(toks)
    ensures i < |toks| && SpanOf(toks[i]) == sp && toks[i].kind == 'a'
  {
    if toks[0].kind == 'a' && SpanOf(toks[0]) == sp {
      i := 0;
    } else {
      i := WordFrom(toks[1..], sp);
      i := i + 1;
    }
  }

  /** Two stretches of a sorted list of tokens. */
  lemma SortedParts(a: seq<Token>, b: seq<Token>)
    requires Sorted(a + b)
    ensures Sorted(a) && Sorted(b) && Before(multiset(WordsOf(a)), multiset(WordsOf(b)))
  {
    var ab := a + b;
    forall i, j | 0 <= i < j < |b| ensures b[i].end <= b[j].start {
      assert ab[|a| + i] == b[i] && ab[|a| + j] == b[j];
    }
    forall i, j | 0 <= i < j < |a| ensures a[i].end <= a[j].start {
      assert ab[i] == a[i] && ab[j] == a[j];
    }
    forall x, y | x in multiset(WordsOf(a)) && y in multiset(WordsOf(b)) ensures x.end <= y.start {
      assert x in WordsOf(a) && y in WordsOf(b);
      var i := WordFrom(a, x);
      var j := WordFrom(b, y);
      assert ab[i] == a[i] && ab[|a| + j] == b[j];
    }
  }

  /** Around a symbol. */
  lemma SortedAround(a: seq<Token>, t: Token, b: seq<Token>)
    requires Sorted(a + [t] + b) && t.kind != 'a'
    ensures Sorted(a) && Sorted(b) && Before(multiset(WordsOf(a)), multiset(WordsOf(b)))
  {
    SortedParts(a + [t], b);
    SortedParts(a, [t]);
    AroundSymbol(a, t, []);
    assert a + [t] + [] == a + [t];
    assert WordsOf(a) + WordsOf([]) == WordsOf(a);
  }

  // -------------------------------------------------------------- simple commands

  lemma {:induction false} ArgsFrom(items: seq<Item>, sp: Span)
    requires WfItems(items) && sp in Args(items)
    ensures sp in WordsOf(TextItems(items))
  {
    WordsOfCat(TextItem(items[0]), TextItems(items[1..]));
    assert WfItem(items[0]);
    OneItemWords(items[0]);
    if !(items[0].Arg? && SpanOf(items[0].word) == sp) {
      ArgsFrom(items[1..], sp);
    }
  }

  lemma {:induction false} TosFrom(items: seq<Item>, r: Redirect)
    requires WfItems(items) && r in Tos(items)
    ensures r.file in WordsOf(TextItems(items))
  {
    WordsOfCat(TextItem(items[0]), TextItems(items[1..]));
    assert WfItem(items[0]);
    OneItemWords(items[0]);
    if !(items[0].To? && RedirectOf(items[0].r) == r) {
      TosFrom(items[1..], r);
    }
  }

  lemma {:induction false} SortedItems(items: seq<Item>)
    requires WfItems(items) && Sorted(TextItems(items))
    ensures SortedSpans(Args(items)) && SortedFiles(Tos(items))
  {
    if items != [] {
      var first, rest := items[0], items[1..];
      SortedParts(TextItem(first), TextItems(rest));
      SortedItems(rest);
      assert WfItem(first);
      OneItemWords(first);
      match first
      case Arg(w) => SortedArg(w, rest);
      case To(r) => SortedTo(r, rest);
    }
  }

  lemma SpansCons(w: Span, args: seq<Span>)
    requires SortedSpans(args) && forall k :: 0 <= k < |args| ==> w.end <= args[k].start
    ensures SortedSpans([w] + args)
  {
    var all := [w] + args;
    forall i, j | 0 <= i < j < |all| ensures all[i].end <= all[j].start {
      assert all[j] == args[j - 1] && (i > 0 ==> all[i] == args[i - 1]);
    }
  }

  lemma FilesCons(r: Redirect, rs: seq<Redirect>)
    requires SortedFiles(rs) && forall k :: 0 <= k < |rs| ==> r.file.end <= rs[k].file.start
    ensures SortedFiles([r] + rs)
  {
    var all := [r] + rs;
    forall i, j | 0 <= i < j < |all| ensures all[i].file.end <= all[j].file.start {
      assert all[j] == rs[j - 1] && (i > 0 ==> all[i] == rs[i - 1]);
    }
  }

  lemma SortedArg(w: Token, rest: seq<Item>)
    requires w.kind == 'a' && WfItems(rest) && SortedSpans(Args(rest))
    requires Before(multiset{SpanOf(w)}, multiset(WordsOf(TextItems(rest))))
    ensures SortedSpans([SpanOf(w)] + Args(rest))
  {
    var args := Args(rest);
    forall k | 0 <= k < |args| ensures SpanOf(w).end <= args[k].start {
      ArgsFrom(rest, args[k]);
      assert args[k] in multiset(WordsOf(TextItems(rest)));
    }
    SpansCons(SpanOf(w), args);
  }

  lemma SortedTo(r: Redirection, rest: seq<Item>)
    requires r.file.kind == 'a' && WfItems(rest) && SortedFiles(Tos(rest))
    requires Before(multiset{SpanOf(r.file)}, multiset(WordsOf(TextItems(rest))))
    ensures SortedFiles([RedirectOf(r)] + Tos(rest))
  {
    var tos := Tos(rest);
    forall k | 0 <= k < |tos| ensures SpanOf(r.file).end <= tos[k].file.start {
      TosFrom(rest, tos[k]);
      assert tos[k].file in multiset(WordsOf(TextItems(rest)));
    }
    FilesCons(RedirectOf(r), tos);
  }

  lemma {:induction false} InOrderWrap(c: Cmd, rs: seq<Redirect>)
    requires InOrder(c) && SortedFiles(rs) && (c.Redir? && rs != [] ==> c.redirect.file.end <= rs[0].file.start)
    ensures InOrder(Wrap(c, rs))
    decreases |rs|
  {
    if rs != [] {
      InOrderWrap(Redir(c, rs[0]), rs[1..]);
    }
  }

  lemma {:induction false} InOrderBacks(c: Cmd, n: nat)
    requires InOrder(c)
    ensures InOrder(Backs(c, n))
    decreases n
  {
    if n > 0 {
      InOrderBacks(Back(c), n - 1);
    }
  }

  lemma {:induction false} RedirectsAreTos(rs: seq<Redirection>) returns (items: seq<Item>)
    requires WfRedirs(rs)
    ensures WfItems(items) && TextItems(items) == TextRedirs(rs) && Tos(items) == Redirects(rs)
  {
    items := [];
    if rs != [] {
      var rest := RedirectsAreTos(rs[1..]);
      items := [To(rs[0])] + rest;
      assert items[1..] == rest;
    }
  }

  lemma SortedRedirects(rs: seq<Redirection>)
    requires WfRedirs(rs) && Sorted(TextRedirs(rs))
    ensures SortedFiles(Redirects(rs))
    ensures Redirects(rs) != [] ==> Redirects(rs)[0].file in WordsOf(TextRedirs(rs))
  {
    var items := RedirectsAreTos(rs);
    SortedItems(items);
    if Redirects(rs) != [] {
      TosFrom(items, Redirects(rs)[0]);
    }
  }

  // ----------------------------------------------------------------- whole lines

  lemma {:induction false} OrderSimple(s: Simple)
    requires WfSimple(s) && Sorted(TextSimple(s))
    ensures InOrder(TreeSimple(s))
    decreases s
  {
    match s
    case Words(items) =>
      SortedItems(items);
      InOrderWrap(Exec(Args(items)), Tos(items));
    case Block(open, line, close, redirs) =>
      SortedAround([open] + TextLine(line), close, TextRedirs(redirs));
      SortedParts([open], TextLine(line));
      OrderLine(line);
      OrderBlock(open, line, redirs);
  }

  lemma OrderBlock(open: Token, line: Line, redirs: seq<Redirection>)
    requires WfLine(line) && WfRedirs(redirs) && InOrder(TreeLine(line)) && Sorted(TextRedirs(redirs))
    requires open.kind != 'a'
    requires Before(multiset(WordsOf([open] + TextLine(line))), multiset(WordsOf(TextRedirs(redirs))))
    ensures InOrder(Wrap(TreeLine(line), Redirects(redirs)))
  {
    SortedRedirects(redirs);
    LineWords(line);
    var c, rs := TreeLine(line), Redirects(redirs);
    if c.Redir? && rs != [] {
      assert c.redirect.file in Spans(c);
      OneWord(open);
      WordsOfCat([open], TextLine(line));
      assert [] + WordsOf(TextLine(line)) == WordsOf(TextLine(line));
      assert rs[0].file in multiset(WordsOf(TextRedirs(redirs)));
    }
    InOrderWrap(c, rs);
  }

  lemma {:induction false} OrderPipe(p: Pipeline)
    requires WfPipe(p) && Sorted(TextPipe(p))
    ensures InOrder(TreePipe(p))
    decreases p
  {
    match p
    case One(s) => OrderSimple(s);
    case Bar(s, bar, rest) =>
      SortedAround(TextSimple(s), bar, TextPipe(rest));
      OrderSimple(s);
      OrderPipe(rest);
      SimpleWords(s);
      PipeWords(rest);
  }

  /** The tree of a line is in the order of its tokens. */
  lemma {:induction false} OrderLine(l: Line)
    requires WfLine(l) && Sorted(TextLine(l))
    ensures InOrder(TreeLine(l))
    decreases l
  {
    match l
    case Last(p, bs) =>
      SortedParts(TextPipe(p), bs);
      OrderPipe(p);
      InOrderBacks(TreePipe(p), |bs|);
    case Semi(p, bs, semi, rest) =>
      SortedAround(TextPipe(p) + bs, semi, TextLine(rest));
      SortedParts(TextPipe(p), bs);
      OrderPipe(p);
      OrderLine(rest);
      OrderSemi(p, bs, rest);
  }

  lemma OrderSemi(p: Pipeline, bs: seq<Token>, rest: Line)
    requires WfPipe(p) && WfBacks(bs) && WfLine(rest) && InOrder(TreePipe(p)) && InOrder(TreeLine(rest))
    requires Before(multiset(WordsOf(TextPipe(p) + bs)), multiset(WordsOf(TextLine(rest))))
    ensures InOrder(List(Backs(TreePipe(p), |bs|), TreeLine(rest)))
  {
    InOrderBacks(TreePipe(p), |bs|);
    PipeWords(p);
    HeadWords(p, bs);
    LineWords(rest);
  }
}
