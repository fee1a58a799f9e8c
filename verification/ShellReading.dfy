/**
 How a command tree reads on a line, said without the grammar: which tokens stand around, between
 and after the parts of every node.
 */
module ShellReading {
  import opened ShellLex
  import opened ShellGrammar

  ghost predicate AllWords(toks: seq<Token>) {
    forall k :: 0 <= k < |toks| ==> toks[k].kind == 'a'
  }

  /** The words are the arguments. */
  ghost predicate ReadsExec(argv: seq<Span>, toks: seq<Token>) {
    AllWords(toks) && |argv| == |toks| && forall k :: 0 <= k < |toks| ==> argv[k] == Span(toks[k].start, toks[k].end)
  }

  predicate IsArrow(t: Token) {
    t.kind == '<' || t.kind == '>' || t.kind == '+'
  }

  /**
   At position i stand a redirection operator and its file, not between another operator and its
   file; after them there are only words.
   */
  ghost predicate RedirAt(r: Redirect, toks: seq<Token>, i: nat) {
    && i + 2 <= |toks| && IsArrow(toks[i]) && (i > 0 ==> !IsArrow(toks[i - 1]))
    && toks[i + 1].kind == 'a' && AllWords(toks[i + 2..])
    && r.file == Span(toks[i + 1].start, toks[i + 1].end) && (r.write <==> toks[i].kind != '<')
  }

  /** A command in itself: words, a line in parentheses, or one of these with a redirection. */
  ghost predicate ReadsSimple(cmd: Cmd, toks: seq<Token>)
    decreases |toks|, 0
  {
    || (cmd.Exec? && ReadsExec(cmd.argv, toks))
    || (|toks| >= 2 && toks[0].kind == '(' && toks[|toks| - 1].kind == ')' && ReadsLine(cmd, toks[1..|toks| - 1]))
    || (cmd.Redir?
        && exists i: nat :: RedirAt(cmd.redirect, toks, i) && ReadsSimple(cmd.cmd, toks[..i] + toks[i + 2..]))
  }

  /** Between the two sides of every pipe stands a '|'. */
  ghost predicate ReadsPipe(cmd: Cmd, toks: seq<Token>)
    decreases |toks|, 1
  {
    || ReadsSimple(cmd, toks)
    || (cmd.Pipe? && exists i: nat :: ReadsBar(cmd.left, toks, i, cmd.right))
  }

  ghost predicate ReadsBar(left: Cmd, toks: seq<Token>, i: nat, right: Cmd)
    decreases |toks|, 0
  {
    i < |toks| && toks[i].kind == '|' && ReadsSimple(left, toks[..i]) && ReadsPipe(right, toks[i + 1..])
  }

  /** Every command in the background is followed by its own '&'. */
  ghost predicate ReadsBack(cmd: Cmd, toks: seq<Token>)
    decreases |toks|, 2
  {
    || ReadsPipe(cmd, toks)
    || (cmd.Back? && toks != [] && toks[|toks| - 1].kind == '&' && ReadsBack(cmd.cmd, toks[..|toks| - 1]))
  }

  /** Between the two sides of every list stands a ';'. */
  ghost predicate ReadsLine(cmd: Cmd, toks: seq<Token>)
    decreases |toks|, 3
  {
    || ReadsBack(cmd, toks)
    || (cmd.List? && exists i: nat :: ReadsSemi(cmd.left, toks, i, cmd.right))
  }

  ghost predicate ReadsSemi(left: Cmd, toks: seq<Token>, i: nat, right: Cmd)
    decreases |toks|, 0
  {
    i < |toks| && toks[i].kind == ';' && ReadsBack(left, toks[..i]) && ReadsLine(right, toks[i + 1..])
  }

  /** No command has MAXARGS words or more. */
  ghost predicate Short(cmd: Cmd) {
    match cmd
    case Exec(argv) => |argv| < MAXARGS
    case Redir(c, _) => Short(c)
    case Pipe(l, r) => Short(l) && Short(r)
    case List(l, r) => Short(l) && Short(r)
    case Back(c) => Short(c)
  }

  // ------------------------------------------------------------- trees read as their text

  lemma Assoc<T>(a: seq<T>, b: seq<T>, c: seq<T>)
    ensures a + b + c == a + (b + c)
  {
  }

  lemma {:induction false} TextItemsCat(a: seq<Item>, b: seq<Item>)
    ensures TextItems(a + b) == TextItems(a) + TextItems(b)
  {
    if a == [] {
      assert a + b == b;
    } else {
      assert (a + b)[1..] == a[1..] + b && (a + b)[0] == a[0];
      TextItemsCat(a[1..], b);
      Assoc(TextItem(a[0]), TextItems(a[1..]), TextItems(b));
    }
  }

  lemma {:induction false} ArgsCat(a: seq<Item>, b: seq<Item>)
    ensures Args(a + b) == Args(a) + Args(b)
  {
    if a == [] {
      assert a + b == b;
    } else {
      assert (a + b)[1..] == a[1..] + b && (a + b)[0] == a[0];
      ArgsCat(a[1..], b);
      Assoc(if a[0].Arg? then [SpanOf(a[0].word)] else [], Args(a[1..]), Args(b));
    }
  }

  lemma {:induction false} TosCat(a: seq<Item>, b: seq<Item>)
    ensures Tos(a + b) == Tos(a) + Tos(b)
  {
    if a == [] {
      assert a + b == b;
    } else {
      assert (a + b)[1..] == a[1..] + b && (a + b)[0] == a[0];
      TosCat(a[1..], b);
      Assoc(if a[0].To? then [RedirectOf(a[0].r)] else [], Tos(a[1..]), Tos(b));
    }
  }

  /** The last token of items is a word. */
  lemma {:induction false} EndsInWord(items: seq<Item>)
    requires WfItems(items) && items != []
    ensures TextItems(items) != [] && TextItems(items)[|TextItems(items)| - 1].kind == 'a'
  {
    assert WfItem(items[0]);
    if |items| > 1 {
      EndsInWord(items[1..]);
    } else {
      assert items[1..] == [];
    }
  }

  lemma {:induction false} WrapSnoc(c: Cmd, rs: seq<Redirect>, r: Redirect)
    ensures Wrap(c, rs + [r]) == Redir(Wrap(c, rs), r)
    decreases |rs|
  {
    if rs == [] {
      assert rs + [r] == [r] && [r][1..] == [];
    } else {
      assert (rs + [r])[1..] == rs[1..] + [r];
      WrapSnoc(Redir(c, rs[0]), rs[1..], r);
    }
  }

  /** Words without a redirection. */
  lemma {:induction false} ReadArgs(items: seq<Item>)
    requires WfItems(items) && forall k :: 0 <= k < |items| ==> items[k].Arg?
    ensures Tos(items) == [] && ReadsExec(Args(items), TextItems(items))
  {
    if items != [] {
      assert WfItem(items[0]);
      ReadArgs(items[1..]);
    }
  }

  /** The last redirection among the items. */
  lemma {:induction false} LastTo(items: seq<Item>) returns (k: int)
    ensures -1 <= k < |items| && (k >= 0 ==> items[k].To?)
    ensures forall j :: k < j < |items| ==> items[j].Arg?
  {
    if items == [] {
      k := -1;
    } else {
      var n := |items| - 1;
      if items[n].To? {
        k := n;
      } else {
        k := LastTo(items[..n]);
      }
    }
  }

  lemma {:induction false} ReadItems(items: seq<Item>)
    requires WfItems(items)
    ensures ReadsSimple(Wrap(Exec(Args(items)), Tos(items)), TextItems(items))
    decreases |items|
  {
    var k := LastTo(items);
    if k < 0 {
      ReadArgs(items);
    } else {
      var a, b := items[..k], items[k + 1..];
      assert items == a + [items[k]] + b && WfItem(items[k]);
      ReadItems(a + b);
      ReadArgs(b);
      ReadTo(a, items[k].r, b);
    }
  }

  lemma NotAfterArrow(a: seq<Item>)
    requires WfItems(a)
    ensures TextItems(a) != [] ==> !IsArrow(TextItems(a)[|TextItems(a)| - 1])
  {
    if a != [] {
      EndsInWord(a);
    }
  }

  /** What a redirection adds to the items around it. */
  lemma AroundTo(a: seq<Item>, r: Redirection, b: seq<Item>)
    requires Tos(b) == []
    ensures var items := a + [To(r)] + b;
            && TextItems(items) == TextItems(a) + [r.op, r.file] + TextItems(b)
            && TextItems(a + b) == TextItems(a) + TextItems(b) && Args(items) == Args(a + b)
            && Wrap(Exec(Args(items)), Tos(items)) == Redir(Wrap(Exec(Args(a + b)), Tos(a + b)), RedirectOf(r))
  {
    var one := [To(r)];
    OneTo(r);
    TextItemsCat(a + one, b);
    TextItemsCat(a, one);
    TextItemsCat(a, b);
    ArgsCat(a + one, b);
    ArgsCat(a, one);
    ArgsCat(a, b);
    TosCat(a + one, b);
    TosCat(a, one);
    TosCat(a, b);
    assert Args(a) + [] == Args(a) && Tos(a) + [] == Tos(a);
    assert Tos(a) + [RedirectOf(r)] + [] == Tos(a) + [RedirectOf(r)];
    WrapSnoc(Exec(Args(a + b)), Tos(a), RedirectOf(r));
  }

  /** A redirection that is followed by words only. */
  lemma ReadTo(a: seq<Item>, r: Redirection, b: seq<Item>)
    requires WfItems(a) && IsRedirOp(r.op) && r.file.kind == 'a' && Tos(b) == [] && AllWords(TextItems(b))
    requires ReadsSimple(Wrap(Exec(Args(a + b)), Tos(a + b)), TextItems(a + b))
    ensures var items := a + [To(r)] + b; ReadsSimple(Wrap(Exec(Args(items)), Tos(items)), TextItems(items))
  {
    AroundTo(a, r, b);
    NotAfterArrow(a);
    InsertRedir(Wrap(Exec(Args(a + b)), Tos(a + b)), TextItems(a), r, TextItems(b));
  }

  lemma InsertRedir(cmd: Cmd, a: seq<Token>, r: Redirection, b: seq<Token>)
    requires ReadsSimple(cmd, a + b) && AllWords(b) && (a != [] ==> !IsArrow(a[|a| - 1]))
    requires IsRedirOp(r.op) && r.file.kind == 'a'
    ensures ReadsSimple(Redir(cmd, RedirectOf(r)), a + [r.op, r.file] + b)
  {
    var toks, i := a + [r.op, r.file] + b, |a|;
    assert toks[..i] == a && toks[i + 2..] == b;
    assert RedirAt(RedirectOf(r), toks, i);
  }

  lemma OneTo(r: Redirection)
    ensures TextItems([To(r)]) == [r.op, r.file] && Args([To(r)]) == [] && Tos([To(r)]) == [RedirectOf(r)]
  {
    assert [To(r)][1..] == [];
  }

  lemma {:induction false} RedirsSnoc(rs: seq<Redirection>, r: Redirection)
    ensures TextRedirs(rs + [r]) == TextRedirs(rs) + [r.op, r.file]
    ensures Redirects(rs + [r]) == Redirects(rs) + [RedirectOf(r)]
  {
    if rs == [] {
      assert rs + [r] == [r] && [r][1..] == [];
    } else {
      assert (rs + [r])[1..] == rs[1..] + [r];
      RedirsSnoc(rs[1..], r);
    }
  }

  lemma RedirsEnd(text: seq<Token>, rs: seq<Redirection>)
    requires WfRedirs(rs) && text != [] && !IsArrow(text[|text| - 1])
    ensures var all := text + TextRedirs(rs); !IsArrow(all[|all| - 1])
  {
    if rs != [] {
      var n := |rs| - 1;
      assert rs == rs[..n] + [rs[n]];
      RedirsSnoc(rs[..n], rs[n]);
    }
  }

  /** A command followed by redirections. */
  lemma {:induction false} ReadRedirs(cmd: Cmd, text: seq<Token>, rs: seq<Redirection>)
    requires ReadsSimple(cmd, text) && WfRedirs(rs) && text != [] && !IsArrow(text[|text| - 1])
    ensures ReadsSimple(Wrap(cmd, Redirects(rs)), text + TextRedirs(rs))
    decreases |rs|
  {
    if rs == [] {
      assert text + [] == text;
    } else {
      var n := |rs| - 1;
      var front, r := rs[..n], rs[n];
      ReadRedirs(cmd, text, front);
      assert rs == front + [r];
      RedirsSnoc(front, r);
      WrapSnoc(cmd, Redirects(front), RedirectOf(r));
      var before := text + TextRedirs(front);
      RedirsEnd(text, front);
      assert before + [] == before && text + TextRedirs(rs) == before + [r.op, r.file] + [];
      InsertRedir(Wrap(cmd, Redirects(front)), before, r, []);
    }
  }

  lemma ReadBlock(cmd: Cmd, open: Token, text: seq<Token>, close: Token)
    requires ReadsLine(cmd, text) && open.kind == '(' && close.kind == ')'
    ensures ReadsSimple(cmd, [open] + text + [close])
  {
    var toks := [open] + text + [close];
    assert toks[1..|toks| - 1] == text;
  }

  lemma {:induction false} ReadBacks(cmd: Cmd, text: seq<Token>, backs: seq<Token>)
    requires ReadsBack(cmd, text) && WfBacks(backs)
    ensures ReadsBack(Backs(cmd, |backs|), text + backs)
    decreases |backs|
  {
    if backs == [] {
      assert text + [] == text;
    } else {
      var toks := text + [backs[0]];
      assert toks[..|toks| - 1] == text;
      ReadBacks(Back(cmd), toks, backs[1..]);
      assert toks + backs[1..] == text + backs;
    }
  }

  lemma {:induction false} SimpleReads(s: Simple)
    requires WfSimple(s)
    ensures ReadsSimple(TreeSimple(s), TextSimple(s))
    decreases s
  {
    match s
    case Words(items) => ReadItems(items);
    case Block(open, line, close, redirs) =>
      LineReads(line);
      ReadBlock(TreeLine(line), open, TextLine(line), close);
      ReadRedirs(TreeLine(line), [open] + TextLine(line) + [close], redirs);
  }

  lemma {:induction false} PipeReads(p: Pipeline)
    requires WfPipe(p)
    ensures ReadsPipe(TreePipe(p), TextPipe(p))
    decreases p
  {
    match p
    case One(s) => SimpleReads(s);
    case Bar(s, bar, rest) =>
      SimpleReads(s);
      PipeReads(rest);
      ReadBar(TreeSimple(s), TextSimple(s), bar, TreePipe(rest), TextPipe(rest));
  }

  lemma ReadBar(left: Cmd, a: seq<Token>, bar: Token, right: Cmd, b: seq<Token>)
    requires ReadsSimple(left, a) && bar.kind == '|' && ReadsPipe(right, b)
    ensures ReadsPipe(Pipe(left, right), a + [bar] + b)
  {
    var toks := a + [bar] + b;
    assert toks[|a|] == bar && toks[..|a|] == a && toks[|a| + 1..] == b;
    assert ReadsBar(left, toks, |a|, right);
  }

  lemma ReadSemi(left: Cmd, a: seq<Token>, semi: Token, right: Cmd, b: seq<Token>)
    requires ReadsBack(left, a) && semi.kind == ';' && ReadsLine(right, b)
    ensures ReadsLine(List(left, right), a + [semi] + b)
  {
    var toks := a + [semi] + b;
    assert toks[|a|] == semi && toks[..|a|] == a && toks[|a| + 1..] == b;
    assert ReadsSemi(left, toks, |a|, right);
  }

  /** The tree of a derivation reads as the text of the derivation. */
  lemma {:induction false} LineReads(l: Line)
    requires WfLine(l)
    ensures ReadsLine(TreeLine(l), TextLine(l))
    decreases l
  {
    match l
    case Last(p, backs) =>
      PipeReads(p);
      ReadBacks(TreePipe(p), TextPipe(p), backs);
    case Semi(p, backs, semi, rest) =>
      PipeReads(p);
      ReadBacks(TreePipe(p), TextPipe(p), backs);
      LineReads(rest);
      ReadSemi(Backs(TreePipe(p), |backs|), TextPipe(p) + backs, semi, TreeLine(rest), TextLine(rest));
  }

  // ------------------------------------------------------- what reads as a text is its tree

  lemma {:induction false} ArgItems(argv: seq<Span>, toks: seq<Token>) returns (items: seq<Item>)
    requires ReadsExec(argv, toks)
    ensures WfItems(items) && TextItems(items) == toks && Args(items) == argv && Tos(items) == []
    decreases |toks|
  {
    items := [];
    if toks != [] {
      var rest := ArgItems(argv[1..], toks[1..]);
      items := [Arg(toks[0])] + rest;
      assert items[1..] == rest && argv == [argv[0]] + argv[1..];
    }
  }

  lemma {:induction false} ArgcIsArgs(items: seq<Item>)
    ensures Argc(items) == |Args(items)|
  {
    if items != [] {
      ArgcIsArgs(items[1..]);
    }
  }

  lemma {:induction false} OnlyWords(items: seq<Item>)
    requires WfItems(items) && AllWords(TextItems(items))
    ensures Tos(items) == []
  {
    if items != [] {
      var text, first := TextItems(items), TextItem(items[0]);
      assert WfItem(items[0]) && text[0] == first[0];
      assert AllWords(TextItems(items[1..])) by {
        assert text[|first|..] == TextItems(items[1..]);
      }
      OnlyWords(items[1..]);
    }
  }

  /** A place in the text of items that is not after an operator is a place between items. */
  lemma {:induction false} SplitItems(items: seq<Item>, i: nat) returns (k: nat)
    requires WfItems(items) && i <= |TextItems(items)| && (i > 0 ==> !IsArrow(TextItems(items)[i - 1]))
    ensures k <= |items| && TextItems(items[..k]) == TextItems(items)[..i]
    ensures TextItems(items[k..]) == TextItems(items)[i..]
  {
    if i == 0 {
      k := 0;
      assert items[..0] == [] && items[0..] == items;
    } else {
      var n := |TextItem(items[0])|;
      assert WfItem(items[0]) && n <= i;
      k := SplitItems(items[1..], i - n);
      k := k + 1;
      SplitNext(items, k, i);
    }
  }

  lemma SplitNext(items: seq<Item>, k: nat, i: nat)
    requires 0 < k <= |items|
    requires var n := |TextItem(items[0])|; n <= i <= |TextItems(items)|
    requires var n, rest := |TextItem(items[0])|, TextItems(items[1..]);
             TextItems(items[1..][..k - 1]) == rest[..i - n] && TextItems(items[1..][k - 1..]) == rest[i - n..]
    ensures TextItems(items[..k]) == TextItems(items)[..i] && TextItems(items[k..]) == TextItems(items)[i..]
  {
    assert items[..k][0] == items[0] && items[..k][1..] == items[1..][..k - 1] && items[k..] == items[1..][k - 1..];
    CutBehind(TextItem(items[0]), TextItems(items[1..]), i);
  }

  lemma CutBehind(first: seq<Token>, rest: seq<Token>, i: nat)
    requires |first| <= i <= |first| + |rest|
    ensures (first + rest)[..i] == first + rest[..i - |first|] && (first + rest)[i..] == rest[i - |first|..]
  {
  }

  /** After a parenthesis and its redirections, words without an operator before them are no words. */
  lemma NothingAfterBlock(text: seq<Token>, rs: seq<Redirection>, pre: seq<Token>, post: seq<Token>)
    requires text != [] && text[|text| - 1].kind == ')' && WfRedirs(rs) && text + TextRedirs(rs) == pre + post
    requires AllWords(post) && (pre != [] ==> !IsArrow(pre[|pre| - 1]))
    ensures post == []
  {
    var all := pre + post;
    assert post != [] ==> all[|all| - 1] == post[|post| - 1];
    assert |post| >= 2 ==> all[|all| - 2] == post[|post| - 2];
    assert |post| == 1 && pre != [] ==> all[|all| - 2] == pre[|pre| - 1];
    if rs == [] {
      assert text + [] == text;
    } else {
      var n := |rs| - 1;
      assert rs == rs[..n] + [rs[n]];
      RedirsSnoc(rs[..n], rs[n]);
      assert all[|all| - 2] == rs[n].op;
    }
  }

  lemma WfParts(items: seq<Item>, k: nat)
    requires WfItems(items) && k <= |items|
    ensures items == items[..k] + items[k..] && WfItems(items[..k]) && WfItems(items[k..])
  {
  }

  lemma Halves(text: seq<Token>, a: seq<Token>, b: seq<Token>)
    requires text == a + b
    ensures text[..|a|] == a && text[|a|..] == b
  {
  }

  /** The items before and after the place of a redirection. */
  lemma ItemsAround(items: seq<Item>, r: Redirect, toks: seq<Token>, i: nat) returns (a: seq<Item>, b: seq<Item>)
    requires WfItems(items) && RedirAt(r, toks, i) && TextItems(items) == toks[..i] + toks[i + 2..]
    ensures items == a + b && WfItems(a) && WfItems(b) && Tos(b) == []
    ensures TextItems(a) == toks[..i] && TextItems(b) == toks[i + 2..]
  {
    Halves(TextItems(items), toks[..i], toks[i + 2..]);
    assert i > 0 ==> TextItems(items)[i - 1] == toks[i - 1];
    var k := SplitItems(items, i);
    a, b := items[..k], items[k..];
    WfParts(items, k);
    OnlyWords(b);
  }

  lemma AddToWords(items: seq<Item>, r: Redirect, toks: seq<Token>, i: nat) returns (items': seq<Item>)
    requires WfItems(items) && RedirAt(r, toks, i) && TextItems(items) == toks[..i] + toks[i + 2..]
    ensures WfItems(items') && TextItems(items') == toks && |Args(items')| == |Args(items)|
    ensures Wrap(Exec(Args(items')), Tos(items')) == Redir(Wrap(Exec(Args(items)), Tos(items)), r)
  {
    var a, b := ItemsAround(items, r, toks, i);
    var rr := Redirection(toks[i], toks[i + 1]);
    items' := a + [To(rr)] + b;
    WithTo(a, rr, b);
    AroundTo(a, rr, b);
    CutOut(toks, i, a, rr, b);
  }

  lemma WithTo(a: seq<Item>, r: Redirection, b: seq<Item>)
    requires WfItems(a) && WfItems(b) && IsRedirOp(r.op) && r.file.kind == 'a'
    ensures WfItems(a + [To(r)] + b)
  {
  }

  lemma CutOut(toks: seq<Token>, i: nat, a: seq<Item>, r: Redirection, b: seq<Item>)
    requires i + 2 <= |toks| && r == Redirection(toks[i], toks[i + 1])
    requires TextItems(a) == toks[..i] && TextItems(b) == toks[i + 2..]
    ensures toks == TextItems(a) + [r.op, r.file] + TextItems(b)
  {
    assert toks == toks[..i] + [toks[i], toks[i + 1]] + toks[i + 2..];
  }

  lemma AddToBlock(open: Token, line: Line, close: Token, rs: seq<Redirection>, r: Redirect, toks: seq<Token>, i: nat)
    returns (s: Simple)
    requires WfSimple(Block(open, line, close, rs)) && RedirAt(r, toks, i)
    requires TextSimple(Block(open, line, close, rs)) == toks[..i] + toks[i + 2..]
    ensures WfSimple(s) && TextSimple(s) == toks && TreeSimple(s) == Redir(TreeSimple(Block(open, line, close, rs)), r)
  {
    var text, rr := [open] + TextLine(line) + [close], Redirection(toks[i], toks[i + 1]);
    NothingAfterBlock(text, rs, toks[..i], toks[i + 2..]);
    RedirsSnoc(rs, rr);
    WrapSnoc(TreeLine(line), Redirects(rs), r);
    s := Block(open, line, close, rs + [rr]);
    assert toks == toks[..i] + [toks[i], toks[i + 1]];
    assert text + (TextRedirs(rs) + [rr.op, rr.file]) == text + TextRedirs(rs) + [rr.op, rr.file];
  }

  lemma {:induction false} FromSimple(cmd: Cmd, toks: seq<Token>) returns (s: Simple)
    requires ReadsSimple(cmd, toks) && Short(cmd)
    ensures WfSimple(s) && TextSimple(s) == toks && TreeSimple(s) == cmd
    decreases |toks|, 0
  {
    if cmd.Exec? && ReadsExec(cmd.argv, toks) {
      var items := ArgItems(cmd.argv, toks);
      ArgcIsArgs(items);
      s := Words(items);
    } else if |toks| >= 2 && toks[0].kind == '(' && toks[|toks| - 1].kind == ')'
              && ReadsLine(cmd, toks[1..|toks| - 1]) {
      var l := FromLine(cmd, toks[1..|toks| - 1]);
      s := Block(toks[0], l, toks[|toks| - 1], []);
      assert toks == [toks[0]] + toks[1..|toks| - 1] + [toks[|toks| - 1]] + [];
    } else {
      var i: nat :| RedirAt(cmd.redirect, toks, i) && ReadsSimple(cmd.cmd, toks[..i] + toks[i + 2..]);
      var s0 := FromSimple(cmd.cmd, toks[..i] + toks[i + 2..]);
      match s0
      case Words(items) =>
        var items' := AddToWords(items, cmd.redirect, toks, i);
        ArgcIsArgs(items);
        ArgcIsArgs(items');
        s := Words(items');
      case Block(open, line, close, rs) =>
        s := AddToBlock(open, line, close, rs, cmd.redirect, toks, i);
    }
  }

  lemma {:induction false} FromPipe(cmd: Cmd, toks: seq<Token>) returns (p: Pipeline)
    requires ReadsPipe(cmd, toks) && Short(cmd)
    ensures WfPipe(p) && TextPipe(p) == toks && TreePipe(p) == cmd
    decreases |toks|, 1
  {
    if ReadsSimple(cmd, toks) {
      var s := FromSimple(cmd, toks);
      p := One(s);
    } else {
      var i: nat :| ReadsBar(cmd.left, toks, i, cmd.right);
      var s := FromSimple(cmd.left, toks[..i]);
      var rest := FromPipe(cmd.right, toks[i + 1..]);
      p := Bar(s, toks[i], rest);
      CutAt(toks, i);
    }
  }

  lemma CutAt(toks: seq<Token>, i: nat)
    requires i < |toks|
    ensures toks == toks[..i] + [toks[i]] + toks[i + 1..]
  {
  }

  lemma {:induction false} BacksSnoc(c: Cmd, n: nat)
    ensures Backs(c, n + 1) == Back(Backs(c, n))
    decreases n
  {
    if n > 0 {
      BacksSnoc(Back(c), n - 1);
    }
  }

  lemma {:induction false} FromBack(cmd: Cmd, toks: seq<Token>) returns (p: Pipeline, backs: seq<Token>)
    requires ReadsBack(cmd, toks) && Short(cmd)
    ensures WfPipe(p) && WfBacks(backs) && TextPipe(p) + backs == toks && Backs(TreePipe(p), |backs|) == cmd
    decreases |toks|, 2
  {
    if ReadsPipe(cmd, toks) {
      p := FromPipe(cmd, toks);
      backs := [];
      assert toks + [] == toks;
    } else {
      var n := |toks| - 1;
      p, backs := FromBack(cmd.cmd, toks[..n]);
      BacksSnoc(TreePipe(p), |backs|);
      assert toks == toks[..n] + [toks[n]];
      assert TextPipe(p) + (backs + [toks[n]]) == TextPipe(p) + backs + [toks[n]];
      backs := backs + [toks[n]];
    }
  }

  lemma {:induction false} FromLine(cmd: Cmd, toks: seq<Token>) returns (l: Line)
    requires ReadsLine(cmd, toks) && Short(cmd)
    ensures WfLine(l) && TextLine(l) == toks && TreeLine(l) == cmd
    decreases |toks|, 3
  {
    if ReadsBack(cmd, toks) {
      var p, backs := FromBack(cmd, toks);
      l := Last(p, backs);
    } else {
      var i: nat :| ReadsSemi(cmd.left, toks, i, cmd.right);
      var p, backs := FromBack(cmd.left, toks[..i]);
      var rest := FromLine(cmd.right, toks[i + 1..]);
      l := Semi(p, backs, toks[i], rest);
      CutAt(toks, i);
    }
  }

  // --------------------------------------------------------------------- lengths

  lemma {:induction false} ShortWrap(c: Cmd, rs: seq<Redirect>)
    ensures Short(Wrap(c, rs)) <==> Short(c)
    decreases |rs|
  {
    if rs != [] {
      ShortWrap(Redir(c, rs[0]), rs[1..]);
    }
  }

  lemma {:induction false} ShortBacks(c: Cmd, n: nat)
    ensures Short(Backs(c, n)) <==> Short(c)
    decreases n
  {
    if n > 0 {
      ShortBacks(Back(c), n - 1);
    }
  }

  lemma {:induction false} ShortSimple(s: Simple)
    requires WfSimple(s)
    ensures Short(TreeSimple(s))
    decreases s
  {
    match s
    case Words(items) =>
      ArgcIsArgs(items);
      ShortWrap(Exec(Args(items)), Tos(items));
    case Block(_, line, _, redirs) =>
      ShortLine(line);
      ShortWrap(TreeLine(line), Redirects(redirs));
  }

  lemma {:induction false} ShortPipe(p: Pipeline)
    requires WfPipe(p)
    ensures Short(TreePipe(p))
    decreases p
  {
    match p
    case One(s) => ShortSimple(s);
    case Bar(s, _, rest) =>
      ShortSimple(s);
      ShortPipe(rest);
  }

  lemma {:induction false} ShortLine(l: Line)
    requires WfLine(l)
    ensures Short(TreeLine(l))
    decreases l
  {
    match l
    case Last(p, backs) =>
      ShortPipe(p);
      ShortBacks(TreePipe(p), |backs|);
    case Semi(p, backs, _, rest) =>
      ShortPipe(p);
      ShortBacks(TreePipe(p), |backs|);
      ShortLine(rest);
  }
}
