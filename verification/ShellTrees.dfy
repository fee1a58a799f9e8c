/** Every word of a line is in its command tree exactly once and in order. */
module ShellTrees {
  import opened ShellLex
  import opened ShellGrammar

  /** The words among tokens. */
  function WordsOf(toks: seq<Token>): seq<Span> {
    if toks == [] then [] else (if toks[0].kind == 'a' then [SpanOf(toks[0])] else []) + WordsOf(toks[1..])
  }

  /** The strings of a tree. */
  ghost function Spans(cmd: Cmd): multiset<Span> {
    match cmd
    case Exec(argv) => multiset(argv)
    case Redir(c, r) => Spans(c) + multiset{r.file}
    case Pipe(l, r) => Spans(l) + Spans(r)
    case List(l, r) => Spans(l) + Spans(r)
    case Back(c) => Spans(c)
  }

  ghost function Files(rs: seq<Redirect>): multiset<Span> {
    if rs == [] then multiset{} else multiset{rs[0].file} + Files(rs[1..])
  }

  lemma {:induction false} WordsOfCat(a: seq<Token>, b: seq<Token>)
    ensures WordsOf(a + b) == WordsOf(a) + WordsOf(b)
  {
    if a == [] {
      assert a + b == b;
    } else {
      assert (a + b)[1..] == a[1..] + b;
      WordsOfCat(a[1..], b);
    }
  }

  lemma OneWord(t: Token)
    ensures WordsOf([t]) == if t.kind == 'a' then [SpanOf(t)] else []
  {
    assert [t][1..] == [];
  }

  /** A symbol between two stretches of tokens. */
  lemma AroundSymbol(a: seq<Token>, t: Token, b: seq<Token>)
    requires t.kind != 'a'
    ensures WordsOf(a + [t] + b) == WordsOf(a) + WordsOf(b)
  {
    OneWord(t);
    WordsOfCat(a, [t]);
    WordsOfCat(a + [t], b);
    assert WordsOf(a) + [] == WordsOf(a);
  }

  lemma {:induction false} SpansWrap(c: Cmd, rs: seq<Redirect>)
    ensures Spans(Wrap(c, rs)) == Spans(c) + Files(rs)
    decreases |rs|
  {
    if rs != [] {
      SpansWrap(Redir(c, rs[0]), rs[1..]);
    }
  }

  lemma {:induction false} SpansBacks(c: Cmd, n: nat)
    ensures Spans(Backs(c, n)) == Spans(c)
    decreases n
  {
    if n > 0 {
      SpansBacks(Back(c), n - 1);
    }
  }

  lemma {:induction false} NoWordsInBacks(bs: seq<Token>)
    requires WfBacks(bs)
    ensures WordsOf(bs) == []
  {
    if bs != [] {
      NoWordsInBacks(bs[1..]);
    }
  }

  lemma {:induction false} RedirWords(rs: seq<Redirection>)
    requires WfRedirs(rs)
    ensures multiset(WordsOf(TextRedirs(rs))) == Files(Redirects(rs))
  {
    if rs != [] {
      RedirWords(rs[1..]);
      var two := [rs[0].op, rs[0].file];
      WordsOfCat(two, TextRedirs(rs[1..]));
      assert WordsOf(two) == [SpanOf(rs[0].file)] by {
        assert two[1..] == [rs[0].file] && two[1..][1..] == [];
      }
      assert Redirects(rs)[1..] == Redirects(rs[1..]);
    }
  }

  lemma {:induction false} ItemWords(items: seq<Item>)
    requires WfItems(items)
    ensures multiset(WordsOf(TextItems(items))) == multiset(Args(items)) + Files(Tos(items))
  {
    if items != [] {
      ItemWords(items[1..]);
      WordsOfCat(TextItem(items[0]), TextItems(items[1..]));
      assert WfItem(items[0]);
      OneItemWords(items[0]);
      if items[0].To? {
        assert Tos(items)[1..] == Tos(items[1..]);
        assert Args(items) == Args(items[1..]);
      } else {
        assert Tos(items) == Tos(items[1..]);
      }
    }
  }

  lemma OneItemWords(i: Item)
    requires WfItem(i)
    ensures WordsOf(TextItem(i)) == [if i.Arg? then SpanOf(i.word) else SpanOf(i.r.file)]
  {
    match i
    case Arg(w) => OneWord(w);
    case To(r) =>
      OneWord(r.file);
      assert [r.op, r.file][1..] == [r.file];
      assert WordsOf([r.op, r.file]) == [] + WordsOf([r.file]);
  }

  lemma {:induction false} SimpleWords(s: Simple)
    requires WfSimple(s)
    ensures Spans(TreeSimple(s)) == multiset(WordsOf(TextSimple(s)))
    decreases s
  {
    match s
    case Words(items) =>
      ItemWords(items);
      SpansWrap(Exec(Args(items)), Tos(items));
    case Block(open, line, close, redirs) =>
      LineWords(line);
      RedirWords(redirs);
      SpansWrap(TreeLine(line), Redirects(redirs));
      BlockText(open, TextLine(line), close, TextRedirs(redirs));
  }

  lemma BlockText(open: Token, text: seq<Token>, close: Token, redirs: seq<Token>)
    requires open.kind != 'a' && close.kind != 'a'
    ensures WordsOf([open] + text + [close] + redirs) == WordsOf(text) + WordsOf(redirs)
  {
    OneWord(open);
    WordsOfCat([open], text);
    assert [] + WordsOf(text) == WordsOf(text);
    AroundSymbol([open] + text, close, redirs);
  }

  lemma BothSides(left: multiset<Span>, a: seq<Token>, t: Token, right: multiset<Span>, b: seq<Token>)
    requires t.kind != 'a' && left == multiset(WordsOf(a)) && right == multiset(WordsOf(b))
    ensures left + right == multiset(WordsOf(a + [t] + b))
  {
    AroundSymbol(a, t, b);
  }

  lemma {:induction false} PipeWords(p: Pipeline)
    requires WfPipe(p)
    ensures Spans(TreePipe(p)) == multiset(WordsOf(TextPipe(p)))
    decreases p
  {
    match p
    case One(s) => SimpleWords(s);
    case Bar(s, bar, rest) =>
      SimpleWords(s);
      PipeWords(rest);
      BarWords(s, bar, rest);
  }

  lemma BarWords(s: Simple, bar: Token, rest: Pipeline)
    requires bar.kind == '|' && Spans(TreeSimple(s)) == multiset(WordsOf(TextSimple(s)))
    requires Spans(TreePipe(rest)) == multiset(WordsOf(TextPipe(rest)))
    ensures Spans(TreePipe(Bar(s, bar, rest))) == multiset(WordsOf(TextPipe(Bar(s, bar, rest))))
  {
    BothSides(Spans(TreeSimple(s)), TextSimple(s), bar, Spans(TreePipe(rest)), TextPipe(rest));
  }

  lemma HeadWords(p: Pipeline, bs: seq<Token>)
    requires WfBacks(bs) && Spans(TreePipe(p)) == multiset(WordsOf(TextPipe(p)))
    ensures Spans(Backs(TreePipe(p), |bs|)) == multiset(WordsOf(TextPipe(p) + bs))
  {
    var tree, text := TreePipe(p), TextPipe(p);
    SpansBacks(tree, |bs|);
    NoWordsInBacks(bs);
    WordsOfCat(text, bs);
    assert WordsOf(text) + [] == WordsOf(text);
  }

  /** Every word of the line is in the tree exactly once, and nothing else is. */
  lemma {:induction false} LineWords(l: Line)
    requires WfLine(l)
    ensures Spans(TreeLine(l)) == multiset(WordsOf(TextLine(l)))
    decreases l
  {
    match l
    case Last(p, bs) =>
      PipeWords(p);
      HeadWords(p, bs);
    case Semi(p, bs, semi, rest) =>
      PipeWords(p);
      LineWords(rest);
      HeadWords(p, bs);
      SemiWords(Backs(TreePipe(p), |bs|), TextPipe(p) + bs, semi, TreeLine(rest), TextLine(rest), TextLine(l));
  }

  lemma SemiWords(left: Cmd, a: seq<Token>, semi: Token, right: Cmd, b: seq<Token>, text: seq<Token>)
    requires semi.kind != 'a' && Spans(left) == multiset(WordsOf(a)) && Spans(right) == multiset(WordsOf(b))
    requires text == a + [semi] + b
    ensures Spans(List(left, right)) == multiset(WordsOf(text))
  {
    BothSides(Spans(left), a, semi, Spans(right), b);
  }
}
