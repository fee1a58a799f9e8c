/**
 The grammar of command lines, the command trees of sh.c, and a parser over tokens that is
 the inverse of writing a derivation out.
 */
module ShellGrammar {
  import opened Common
  import opened ShellLex

  const MAXARGS := 10

  // -------------------------------------------------------------- command trees

  /** Where a string starts and ends in the line buffer. */
  datatype Span = Span(start: nat, end: nat)

  /** Opened for reading as 0, or created and opened for writing as 1 (both > and >>). */
  datatype Redirect = Redirect(file: Span, write: bool)

  datatype Cmd =
    | Exec(argv: seq<Span>)
    | Redir(cmd: Cmd, redirect: Redirect)
    | Pipe(left: Cmd, right: Cmd)
    | List(left: Cmd, right: Cmd)
    | Back(cmd: Cmd)

  /** The redirections wrapped around a command, the first one innermost. */
  function Wrap(cmd: Cmd, rs: seq<Redirect>): Cmd
    decreases |rs|
  {
    if rs == [] then cmd else Wrap(Redir(cmd, rs[0]), rs[1..])
  }

  // ---------------------------------------------------------------- derivations

  datatype Redirection = Redirection(op: Token, file: Token)
  datatype Item = Arg(word: Token) | To(r: Redirection)
  datatype Simple = Words(items: seq<Item>) | Block(open: Token, line: Line, close: Token, redirs: seq<Redirection>)
  datatype Pipeline = One(first: Simple) | Bar(first: Simple, bar: Token, rest: Pipeline)
  datatype Line =
    | Last(pipe: Pipeline, backs: seq<Token>)
    | Semi(pipe: Pipeline, backs: seq<Token>, semi: Token, rest: Line)

  predicate IsRedirOp(t: Token) {
    t.kind == '<' || t.kind == '>' || t.kind == '+'
  }

  predicate WfRedirs(rs: seq<Redirection>) {
    forall i :: 0 <= i < |rs| ==> IsRedirOp(rs[i].op) && rs[i].file.kind == 'a'
  }

  function Weight(i: Item): nat {
    if i.Arg? then 1 else 0
  }

  function Argc(items: seq<Item>): nat {
    if items == [] then 0 else Weight(items[0]) + Argc(items[1..])
  }

  predicate WfItem(i: Item) {
    match i
    case Arg(w) => w.kind == 'a'
    case To(r) => IsRedirOp(r.op) && r.file.kind == 'a'
  }

  predicate WfItems(items: seq<Item>) {
    forall i :: 0 <= i < |items| ==> WfItem(items[i])
  }

  predicate WfBacks(backs: seq<Token>) {
    forall i :: 0 <= i < |backs| ==> backs[i].kind == '&'
  }

  /** A simple command has at most MAXARGS - 1 words. */
  predicate WfSimple(s: Simple) {
    match s
    case Words(items) => WfItems(items) && Argc(items) < MAXARGS
    case Block(open, line, close, redirs) => open.kind == '(' && WfLine(line) && close.kind == ')' && WfRedirs(redirs)
  }

  predicate WfPipe(p: Pipeline) {
    match p
    case One(s) => WfSimple(s)
    case Bar(s, bar, rest) => WfSimple(s) && bar.kind == '|' && WfPipe(rest)
  }

  predicate WfLine(l: Line) {
    match l
    case Last(p, backs) => WfPipe(p) && WfBacks(backs)
    case Semi(p, backs, semi, rest) => WfPipe(p) && WfBacks(backs) && semi.kind == ';' && WfLine(rest)
  }

  // ------------------------------------------------- derivations written out

  function TextRedirs(rs: seq<Redirection>): seq<Token> {
    if rs == [] then [] else [rs[0].op, rs[0].file] + TextRedirs(rs[1..])
  }

  function TextItem(i: Item): seq<Token> {
    match i
    case Arg(w) => [w]
    case To(r) => [r.op, r.file]
  }

  function TextItems(items: seq<Item>): seq<Token> {
    if items == [] then [] else TextItem(items[0]) + TextItems(items[1..])
  }

  function TextSimple(s: Simple): seq<Token> {
    match s
    case Words(items) => TextItems(items)
    case Block(open, line, close, redirs) => [open] + TextLine(line) + [close] + TextRedirs(redirs)
  }

  function TextPipe(p: Pipeline): seq<Token> {
    match p
    case One(s) => TextSimple(s)
    case Bar(s, bar, rest) => TextSimple(s) + [bar] + TextPipe(rest)
  }

  function TextLine(l: Line): seq<Token> {
    match l
    case Last(p, backs) => TextPipe(p) + backs
    case Semi(p, backs, semi, rest) => TextPipe(p) + backs + [semi] + TextLine(rest)
  }

  // --------------------------------------------------------- derivations as trees

  function SpanOf(t: Token): Span {
    Span(t.start, t.end)
  }

  function RedirectOf(r: Redirection): Redirect {
    Redirect(SpanOf(r.file), r.op.kind != '<')
  }

  function Redirects(rs: seq<Redirection>): seq<Redirect> {
    if rs == [] then [] else [RedirectOf(rs[0])] + Redirects(rs[1..])
  }

  function Args(items: seq<Item>): seq<Span> {
    if items == [] then [] else (if items[0].Arg? then [SpanOf(items[0].word)] else []) + Args(items[1..])
  }

  function Tos(items: seq<Item>): seq<Redirect> {
    if items == [] then [] else (if items[0].To? then [RedirectOf(items[0].r)] else []) + Tos(items[1..])
  }

  function TreeSimple(s: Simple): Cmd {
    match s
    case Words(items) => Wrap(Exec(Args(items)), Tos(items))
    case Block(_, line, _, redirs) => Wrap(TreeLine(line), Redirects(redirs))
  }

  function TreePipe(p: Pipeline): Cmd {
    match p
    case One(s) => TreeSimple(s)
    case Bar(s, _, rest) => Pipe(TreeSimple(s), TreePipe(rest))
  }

  function Backs(c: Cmd, n: nat): Cmd
    decreases n
  {
    if n == 0 then c else Backs(Back(c), n - 1)
  }

  function TreeLine(l: Line): Cmd {
    match l
    case Last(p, backs) => Backs(TreePipe(p), |backs|)
    case Semi(p, backs, _, rest) => List(Backs(TreePipe(p), |backs|), TreeLine(rest))
  }

  // ---------------------------------------------------------- parsing token lists

  predicate StopsItems(toks: seq<Token>) {
    toks == [] || toks[0].kind == '|' || toks[0].kind == ')' || toks[0].kind == '&' || toks[0].kind == ';'
  }

  function ParseRedirs(toks: seq<Token>): (r: Option<(seq<Redirection>, seq<Token>)>)
    ensures r.Some? ==> |r.value.1| <= |toks| && (r.value.1 == [] || !IsRedirOp(r.value.1[0]))
  {
    if toks == [] || !IsRedirOp(toks[0]) then Some(([], toks))
    else if |toks| < 2 || toks[1].kind != 'a' then None
    else
      match ParseRedirs(toks[2..])
      case None => None
      case Some((rs, rest)) => Some(([Redirection(toks[0], toks[1])] + rs, rest))
  }

  function ParseItems(toks: seq<Token>, argc: nat): (r: Option<(seq<Item>, seq<Token>)>)
    requires argc < MAXARGS
    ensures r.Some? ==> |r.value.1| <= |toks|
  {
    if StopsItems(toks) then Some(([], toks))
    else if IsRedirOp(toks[0]) then
      if |toks| < 2 || toks[1].kind != 'a' then None
      else
        match ParseItems(toks[2..], argc)
        case None => None
        case Some((items, rest)) => Some(([To(Redirection(toks[0], toks[1]))] + items, rest))
    else if toks[0].kind != 'a' || argc + 1 >= MAXARGS then None
    else
      match ParseItems(toks[1..], argc + 1)
      case None => None
      case Some((items, rest)) => Some(([Arg(toks[0])] + items, rest))
  }

  function ParseSimple(toks: seq<Token>): (r: Option<(Simple, seq<Token>)>)
    ensures r.Some? ==> |r.value.1| <= |toks|
    decreases |toks|, 0
  {
    if toks != [] && toks[0].kind == '(' then
      match ParseLine(toks[1..])
      case None => None
      case Some((line, rest)) =>
        if rest == [] || rest[0].kind != ')' then None
        else
          match ParseRedirs(rest[1..])
          case None => None
          case Some((rs, rest')) => Some((Block(toks[0], line, rest[0], rs), rest'))
    else
      match ParseItems(toks, 0)
      case None => None
      case Some((items, rest)) => Some((Words(items), rest))
  }

  function ParsePipe(toks: seq<Token>): (r: Option<(Pipeline, seq<Token>)>)
    ensures r.Some? ==> |r.value.1| <= |toks|
    decreases |toks|, 1
  {
    match ParseSimple(toks)
    case None => None
    case Some((s, rest)) =>
      if rest == [] || rest[0].kind != '|' then Some((One(s), rest))
      else
        match ParsePipe(rest[1..])
        case None => None
        case Some((p, rest')) => Some((Bar(s, rest[0], p), rest'))
  }

  function ParseBacks(toks: seq<Token>): (r: (seq<Token>, seq<Token>))
    ensures |r.1| <= |toks|
  {
    if toks == [] || toks[0].kind != '&' then ([], toks)
    else var (bs, rest) := ParseBacks(toks[1..]); ([toks[0]] + bs, rest)
  }

  function ParseLine(toks: seq<Token>): (r: Option<(Line, seq<Token>)>)
    ensures r.Some? ==> |r.value.1| <= |toks|
    decreases |toks|, 2
  {
    match ParsePipe(toks)
    case None => None
    case Some((p, rest)) =>
      var (bs, rest1) := ParseBacks(rest);
      if rest1 == [] || rest1[0].kind != ';' then Some((Last(p, bs), rest1))
      else
        match ParseLine(rest1[1..])
        case None => None
        case Some((l, rest2)) => Some((Semi(p, bs, rest1[0], l), rest2))
  }

  // ------------------------------------------------- what is parsed is what was there

  /** a + (b + (c + (d + e))) without the brackets. */
  lemma Joined(a: seq<Token>, b: seq<Token>, c: seq<Token>, d: seq<Token>, e: seq<Token>)
    ensures a + (b + (c + (d + e))) == a + b + c + d + e
  {
  }

  lemma {:induction false} SoundRedirs(toks: seq<Token>)
    requires ParseRedirs(toks).Some?
    ensures var (rs, rest) := ParseRedirs(toks).value; WfRedirs(rs) && TextRedirs(rs) + rest == toks
  {
    if toks != [] && IsRedirOp(toks[0]) {
      SoundRedirs(toks[2..]);
      var (rs, rest) := ParseRedirs(toks[2..]).value;
      var r := Redirection(toks[0], toks[1]);
      assert ([r] + rs)[1..] == rs;
      assert [toks[0], toks[1]] + TextRedirs(rs) + rest == [toks[0], toks[1]] + (TextRedirs(rs) + rest);
    }
  }

  lemma {:induction false} SoundItems(toks: seq<Token>, argc: nat)
    requires argc < MAXARGS && ParseItems(toks, argc).Some?
    ensures var (items, rest) := ParseItems(toks, argc).value;
            WfItems(items) && TextItems(items) + rest == toks && argc + Argc(items) < MAXARGS && StopsItems(rest)
  {
    if !StopsItems(toks) {
      var i := if IsRedirOp(toks[0]) then To(Redirection(toks[0], toks[1])) else Arg(toks[0]);
      var n := |TextItem(i)|;
      SoundItems(toks[n..], argc + Weight(i));
      SoundItem(toks, argc, i,
                ParseItems(toks[n..], argc + Weight(i)).value.0, ParseItems(toks[n..], argc + Weight(i)).value.1);
    }
  }

  lemma SoundItem(toks: seq<Token>, argc: nat, i: Item, items: seq<Item>, rest: seq<Token>)
    requires WfItem(i) && TextItem(i) <= toks && WfItems(items) && TextItems(items) + rest == toks[|TextItem(i)|..]
    requires argc + Weight(i) + Argc(items) < MAXARGS
    ensures WfItems([i] + items) && TextItems([i] + items) + rest == toks && argc + Argc([i] + items) < MAXARGS
  {
    assert ([i] + items)[1..] == items;
    assert toks == TextItem(i) + toks[|TextItem(i)|..];
    assert TextItem(i) + TextItems(items) + rest == TextItem(i) + (TextItems(items) + rest);
  }

  lemma {:induction false} SoundSimple(toks: seq<Token>)
    requires ParseSimple(toks).Some?
    ensures var (s, rest) := ParseSimple(toks).value; WfSimple(s) && TextSimple(s) + rest == toks
    decreases |toks|, 0
  {
    if toks != [] && toks[0].kind == '(' {
      SoundLine(toks[1..]);
      SoundBlock(toks, ParseLine(toks[1..]).value.0, ParseLine(toks[1..]).value.1);
    } else {
      SoundItems(toks, 0);
    }
  }

  lemma SoundBlock(toks: seq<Token>, line: Line, rest1: seq<Token>)
    requires toks != [] && toks[0].kind == '(' && ParseLine(toks[1..]) == Some((line, rest1)) && ParseSimple(toks).Some?
    requires WfLine(line) && TextLine(line) + rest1 == toks[1..]
    ensures var (s, rest) := ParseSimple(toks).value; WfSimple(s) && TextSimple(s) + rest == toks
  {
    SoundRedirs(rest1[1..]);
    var (rs, rest) := ParseRedirs(rest1[1..]).value;
    var text, close := TextLine(line), rest1[0];
    Joined([toks[0]], text, [close], TextRedirs(rs), rest);
    assert toks == [toks[0]] + toks[1..] && rest1 == [close] + rest1[1..];
    assert ParseSimple(toks).value == (Block(toks[0], line, close, rs), rest);
    assert TextSimple(Block(toks[0], line, close, rs)) == [toks[0]] + text + [close] + TextRedirs(rs);
  }

  lemma {:induction false} SoundPipe(toks: seq<Token>)
    requires ParsePipe(toks).Some?
    ensures var (p, rest) := ParsePipe(toks).value; WfPipe(p) && TextPipe(p) + rest == toks
    decreases |toks|, 1
  {
    SoundSimple(toks);
    var (s, rest) := ParseSimple(toks).value;
    if rest != [] && rest[0].kind == '|' {
      SoundPipe(rest[1..]);
      SoundBar(toks, s, rest, ParsePipe(rest[1..]).value.0, ParsePipe(rest[1..]).value.1);
    } else {
      assert ParsePipe(toks).value == (One(s), rest);
    }
  }

  lemma SoundBar(toks: seq<Token>, s: Simple, rest: seq<Token>, p: Pipeline, rest1: seq<Token>)
    requires ParseSimple(toks) == Some((s, rest)) && rest != [] && rest[0].kind == '|'
    requires ParsePipe(rest[1..]) == Some((p, rest1))
    requires WfSimple(s) && TextSimple(s) + rest == toks && WfPipe(p) && TextPipe(p) + rest1 == rest[1..]
    ensures ParsePipe(toks) == Some((Bar(s, rest[0], p), rest1))
    ensures WfPipe(Bar(s, rest[0], p)) && TextPipe(Bar(s, rest[0], p)) + rest1 == toks
  {
    assert TextSimple(s) + [rest[0]] + TextPipe(p) + rest1 == TextSimple(s) + ([rest[0]] + (TextPipe(p) + rest1));
    assert rest == [rest[0]] + rest[1..];
    assert TextPipe(Bar(s, rest[0], p)) == TextSimple(s) + [rest[0]] + TextPipe(p);
  }

  lemma {:induction false} SoundBacks(toks: seq<Token>)
    ensures var (bs, rest) := ParseBacks(toks); WfBacks(bs) && bs + rest == toks
  {
    if toks != [] && toks[0].kind == '&' {
      SoundBacks(toks[1..]);
      var (bs, rest) := ParseBacks(toks[1..]);
      assert [toks[0]] + bs + rest == [toks[0]] + (bs + rest);
    }
  }

  /** A parsed line is well formed, and its text is what has been read. */
  lemma {:induction false} SoundLine(toks: seq<Token>)
    requires ParseLine(toks).Some?
    ensures var (l, rest) := ParseLine(toks).value; WfLine(l) && TextLine(l) + rest == toks
    decreases |toks|, 2
  {
    SoundPipe(toks);
    var (p, rest) := ParsePipe(toks).value;
    SoundBacks(rest);
    var (bs, rest1) := ParseBacks(rest);
    if rest1 != [] && rest1[0].kind == ';' {
      SoundLine(rest1[1..]);
      SoundSemi(toks, p, rest, bs, rest1, ParseLine(rest1[1..]).value.0, ParseLine(rest1[1..]).value.1);
    } else {
      assert TextPipe(p) + bs + rest1 == TextPipe(p) + (bs + rest1);
      assert ParseLine(toks).value == (Last(p, bs), rest1);
    }
  }

  lemma SoundSemi(toks: seq<Token>, p: Pipeline, rest: seq<Token>, bs: seq<Token>, rest1: seq<Token>, l: Line,
                  rest2: seq<Token>)
    requires ParsePipe(toks) == Some((p, rest)) && ParseBacks(rest) == (bs, rest1) && rest1 != []
    requires rest1[0].kind == ';'
    requires ParseLine(rest1[1..]) == Some((l, rest2)) && WfPipe(p) && TextPipe(p) + rest == toks
    requires WfLine(l) && TextLine(l) + rest2 == rest1[1..] && WfBacks(bs) && bs + rest1 == rest
    ensures ParseLine(toks) == Some((Semi(p, bs, rest1[0], l), rest2))
    ensures WfLine(Semi(p, bs, rest1[0], l)) && TextLine(Semi(p, bs, rest1[0], l)) + rest2 == toks
  {
    Joined(TextPipe(p), bs, [rest1[0]], TextLine(l), rest2);
    assert rest1 == [rest1[0]] + rest1[1..];
    assert TextLine(Semi(p, bs, rest1[0], l)) == TextPipe(p) + bs + [rest1[0]] + TextLine(l);
  }

  // ----------------------------------------------------- everything written is parsed

  predicate AfterSimple(rest: seq<Token>) {
    StopsItems(rest)
  }

  predicate AfterPipe(rest: seq<Token>) {
    rest == [] || rest[0].kind == ')' || rest[0].kind == '&' || rest[0].kind == ';'
  }

  predicate AfterLine(rest: seq<Token>) {
    rest == [] || rest[0].kind == ')'
  }

  lemma {:induction false} CompleteRedirs(rs: seq<Redirection>, rest: seq<Token>)
    requires WfRedirs(rs) && (rest == [] || !IsRedirOp(rest[0]))
    ensures ParseRedirs(TextRedirs(rs) + rest) == Some((rs, rest))
  {
    if rs == [] {
      assert TextRedirs(rs) + rest == rest;
    } else {
      var toks := TextRedirs(rs) + rest;
      assert toks[2..] == TextRedirs(rs[1..]) + rest;
      assert toks[0] == rs[0].op && toks[1] == rs[0].file;
      CompleteRedirs(rs[1..], rest);
      assert rs == [Redirection(toks[0], toks[1])] + rs[1..];
    }
  }

  lemma {:induction false} CompleteItems(items: seq<Item>, argc: nat, rest: seq<Token>)
    requires WfItems(items) && argc + Argc(items) < MAXARGS && StopsItems(rest)
    ensures ParseItems(TextItems(items) + rest, argc) == Some((items, rest))
  {
    if items == [] {
      assert TextItems(items) + rest == rest;
    } else {
      assert WfItem(items[0]);
      CompleteItems(items[1..], argc + Weight(items[0]), rest);
      CompleteItem(items, argc, rest);
    }
  }

  lemma CompleteItem(items: seq<Item>, argc: nat, rest: seq<Token>)
    requires items != [] && WfItem(items[0]) && argc + Weight(items[0]) < MAXARGS
    requires ParseItems(TextItems(items[1..]) + rest, argc + Weight(items[0])) == Some((items[1..], rest))
    ensures ParseItems(TextItems(items) + rest, argc) == Some((items, rest))
  {
    var i, tail := items[0], TextItems(items[1..]) + rest;
    var toks := TextItem(i) + tail;
    assert TextItems(items) + rest == toks by {
      assert TextItem(i) + TextItems(items[1..]) + rest == TextItem(i) + tail;
    }
    assert toks[|TextItem(i)|..] == tail;
    assert items == [i] + items[1..];
  }

  lemma {:induction false} CompleteSimple(s: Simple, rest: seq<Token>)
    requires WfSimple(s) && AfterSimple(rest)
    ensures ParseSimple(TextSimple(s) + rest) == Some((s, rest))
    decreases s
  {
    var toks := TextSimple(s) + rest;
    match s
    case Words(items) =>
      if items != [] {
        assert WfItem(items[0]);
        assert toks[0] == TextItem(items[0])[0];
      } else {
        assert toks == rest;
      }
      CompleteItems(items, 0, rest);
    case Block(open, line, close, redirs) =>
      var rest1 := [close] + (TextRedirs(redirs) + rest);
      assert toks == [open] + (TextLine(line) + rest1);
      assert toks[0] == open && toks[1..] == TextLine(line) + rest1;
      CompleteLine(line, rest1);
      assert rest1[1..] == TextRedirs(redirs) + rest;
      CompleteRedirs(redirs, rest);
  }

  lemma {:induction false} CompletePipe(p: Pipeline, rest: seq<Token>)
    requires WfPipe(p) && AfterPipe(rest)
    ensures ParsePipe(TextPipe(p) + rest) == Some((p, rest))
    decreases p
  {
    match p
    case One(s) =>
      CompleteSimple(s, rest);
    case Bar(s, bar, p') =>
      var rest1 := [bar] + (TextPipe(p') + rest);
      assert TextPipe(p) + rest == TextSimple(s) + rest1;
      CompleteSimple(s, rest1);
      assert rest1[1..] == TextPipe(p') + rest;
      CompletePipe(p', rest);
  }

  lemma {:induction false} CompleteBacks(bs: seq<Token>, rest: seq<Token>)
    requires WfBacks(bs) && (rest == [] || rest[0].kind != '&')
    ensures ParseBacks(bs + rest) == (bs, rest)
  {
    if bs == [] {
      assert bs + rest == rest;
    } else {
      assert (bs + rest)[1..] == bs[1..] + rest;
      CompleteBacks(bs[1..], rest);
      assert bs == [bs[0]] + bs[1..];
    }
  }

  /** Parsing is the inverse of writing out: the grammar is unambiguous and every sentence is accepted. */
  lemma {:induction false} CompleteLine(l: Line, rest: seq<Token>)
    requires WfLine(l) && AfterLine(rest)
    ensures ParseLine(TextLine(l) + rest) == Some((l, rest))
    decreases l
  {
    var p, bs := l.pipe, l.backs;
    match l
    case Last(_, _) =>
      assert bs == [] ==> bs + rest == rest;
      CompletePipe(p, bs + rest);
      CompleteLast(p, bs, rest);
    case Semi(_, _, semi, l') =>
      CompletePipe(p, bs + ([semi] + (TextLine(l') + rest)));
      CompleteLine(l', rest);
      CompleteSemi(p, bs, semi, l', rest);
  }

  lemma CompleteLast(p: Pipeline, bs: seq<Token>, rest: seq<Token>)
    requires WfLine(Last(p, bs)) && AfterLine(rest) && ParsePipe(TextPipe(p) + (bs + rest)) == Some((p, bs + rest))
    ensures ParseLine(TextLine(Last(p, bs)) + rest) == Some((Last(p, bs), rest))
  {
    Regrouped(TextPipe(p), bs, rest);
    CompleteBacks(bs, rest);
    ParsedLast(TextPipe(p) + (bs + rest), p, bs, rest);
  }

  lemma ParsedLast(toks: seq<Token>, p: Pipeline, bs: seq<Token>, rest: seq<Token>)
    requires ParsePipe(toks) == Some((p, bs + rest)) && ParseBacks(bs + rest) == (bs, rest)
    requires (rest == [] || rest[0].kind != ';')
    ensures ParseLine(toks) == Some((Last(p, bs), rest))
  {
  }

  lemma Regrouped(a: seq<Token>, b: seq<Token>, c: seq<Token>)
    ensures a + b + c == a + (b + c)
  {
  }

  lemma CompleteSemi(p: Pipeline, bs: seq<Token>, semi: Token, l: Line, rest: seq<Token>)
    requires WfLine(Semi(p, bs, semi, l)) && ParseLine(TextLine(l) + rest) == Some((l, rest))
    requires var rest1 := bs + ([semi] + (TextLine(l) + rest)); ParsePipe(TextPipe(p) + rest1) == Some((p, rest1))
    ensures ParseLine(TextLine(Semi(p, bs, semi, l)) + rest) == Some((Semi(p, bs, semi, l), rest))
  {
    var rest1 := [semi] + (TextLine(l) + rest);
    Joined(TextPipe(p), bs, [semi], TextLine(l), rest);
    CompleteBacks(bs, rest1);
    ParsedSemi(TextPipe(p) + (bs + rest1), p, bs, semi, l, TextLine(l) + rest, rest);
  }

  lemma ParsedSemi(toks: seq<Token>, p: Pipeline, bs: seq<Token>, semi: Token, l: Line, rest1: seq<Token>,
                   rest: seq<Token>)
    requires ParsePipe(toks) == Some((p, bs + ([semi] + rest1)))
    requires ParseBacks(bs + ([semi] + rest1)) == (bs, [semi] + rest1)
    requires semi.kind == ';' && ParseLine(rest1) == Some((l, rest))
    ensures ParseLine(toks) == Some((Semi(p, bs, semi, l), rest))
  {
    assert ([semi] + rest1)[1..] == rest1;
  }
}
