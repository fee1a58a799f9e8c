/** Reading the items of a simple command step by step. */
module ShellItems {
  import opened Common
  import opened ShellLex
  import opened ShellGrammar

  function ToItems(rs: seq<Redirection>): seq<Item> {
    if rs == [] then [] else [To(rs[0])] + ToItems(rs[1..])
  }

  ghost function Prepend(done: seq<Item>, r: Option<(seq<Item>, seq<Token>)>): Option<(seq<Item>, seq<Token>)> {
    match r
    case None => None
    case Some((items, left)) => Some((done + items, left))
  }

  /** What the items `done` and the parse of the rest make together. */
  ghost predicate ItemsSoFar(toks: seq<Token>, done: seq<Item>, argc: nat, rest: seq<Token>) {
    argc < MAXARGS && ParseItems(toks, 0) == Prepend(done, ParseItems(rest, argc))
  }

  lemma PrependTwice(a: seq<Item>, b: seq<Item>, r: Option<(seq<Item>, seq<Token>)>)
    ensures Prepend(a, Prepend(b, r)) == Prepend(a + b, r)
  {
    if r.Some? {
      assert a + (b + r.value.0) == a + b + r.value.0;
    }
  }

  lemma ItemsStart(toks: seq<Token>)
    ensures ItemsSoFar(toks, [], 0, toks)
  {
    var r := ParseItems(toks, 0);
    if r.Some? {
      assert [] + r.value.0 == r.value.0;
    }
  }

  /** One redirection first. */
  lemma ItemsOneRedir(toks: seq<Token>, argc: nat)
    requires argc < MAXARGS && |toks| >= 2 && IsRedirOp(toks[0]) && toks[1].kind == 'a'
    ensures ParseItems(toks, argc) == Prepend([To(Redirection(toks[0], toks[1]))], ParseItems(toks[2..], argc))
  {
    assert !StopsItems(toks);
  }

  lemma {:induction false} ItemsAfterRedirs(toks: seq<Token>, argc: nat)
    requires argc < MAXARGS
    ensures ParseRedirs(toks).None? ==> ParseItems(toks, argc).None?
    ensures ParseRedirs(toks).Some? ==>
      ParseItems(toks, argc) == Prepend(ToItems(ParseRedirs(toks).value.0), ParseItems(ParseRedirs(toks).value.1, argc))
  {
    if toks == [] || !IsRedirOp(toks[0]) {
      var r := ParseItems(toks, argc);
      assert r.Some? ==> [] + r.value.0 == r.value.0;
    } else if |toks| < 2 || toks[1].kind != 'a' {
      assert !StopsItems(toks);
    } else {
      ItemsAfterRedirs(toks[2..], argc);
      ItemsOneRedir(toks, argc);
      if ParseRedirs(toks[2..]).Some? {
        var (rs, left) := ParseRedirs(toks[2..]).value;
        var r := Redirection(toks[0], toks[1]);
        PrependTwice([To(r)], ToItems(rs), ParseItems(left, argc));
        assert ([r] + rs)[1..] == rs;
      }
    }
  }

  lemma ItemsRedirs(toks: seq<Token>, done: seq<Item>, argc: nat, rest: seq<Token>)
    requires ItemsSoFar(toks, done, argc, rest)
    ensures ParseRedirs(rest).None? ==> ParseItems(toks, 0).None?
    ensures ParseRedirs(rest).Some? ==>
      ItemsSoFar(toks, done + ToItems(ParseRedirs(rest).value.0), argc, ParseRedirs(rest).value.1)
  {
    ItemsAfterRedirs(rest, argc);
    if ParseRedirs(rest).Some? {
      var (rs, left) := ParseRedirs(rest).value;
      PrependTwice(done, ToItems(rs), ParseItems(left, argc));
    }
  }

  lemma ItemsArg(toks: seq<Token>, done: seq<Item>, argc: nat, rest: seq<Token>)
    requires ItemsSoFar(toks, done, argc, rest) && rest != [] && rest[0].kind == 'a'
    ensures argc + 1 >= MAXARGS ==> ParseItems(toks, 0).None?
    ensures argc + 1 < MAXARGS ==> ItemsSoFar(toks, done + [Arg(rest[0])], argc + 1, rest[1..])
  {
    if argc + 1 < MAXARGS {
      PrependTwice(done, [Arg(rest[0])], ParseItems(rest[1..], argc + 1));
    }
  }

  lemma {:induction false} ArgsCat(a: seq<Item>, b: seq<Item>)
    ensures Args(a + b) == Args(a) + Args(b)
  {
    if a == [] {
      assert a + b == b;
    } else {
      var ab := a + b;
      assert ab[0] == a[0] && ab[1..] == a[1..] + b;
      ArgsCat(a[1..], b);
      assert Args(ab) == (if a[0].Arg? then [SpanOf(a[0].word)] else []) + Args(ab[1..]);
    }
  }

  lemma {:induction false} TosCat(a: seq<Item>, b: seq<Item>)
    ensures Tos(a + b) == Tos(a) + Tos(b)
  {
    if a == [] {
      assert a + b == b;
    } else {
      var ab := a + b;
      assert ab[0] == a[0] && ab[1..] == a[1..] + b;
      TosCat(a[1..], b);
      assert Tos(ab) == (if a[0].To? then [RedirectOf(a[0].r)] else []) + Tos(ab[1..]);
    }
  }

  lemma {:induction false} ToItemsParts(rs: seq<Redirection>)
    ensures Args(ToItems(rs)) == [] && Tos(ToItems(rs)) == Redirects(rs)
  {
    if rs != [] {
      ToItemsParts(rs[1..]);
      assert ToItems(rs)[1..] == ToItems(rs[1..]);
    }
  }

  /** The parts of a command after more redirections, and after one more word. */
  lemma PartsRedirs(done: seq<Item>, rs: seq<Redirection>)
    ensures Args(done + ToItems(rs)) == Args(done) && Tos(done + ToItems(rs)) == Tos(done) + Redirects(rs)
  {
    ArgsCat(done, ToItems(rs));
    TosCat(done, ToItems(rs));
    ToItemsParts(rs);
    assert Args(done) + [] == Args(done);
  }

  lemma PartsArg(done: seq<Item>, t: Token)
    ensures Args(done + [Arg(t)]) == Args(done) + [SpanOf(t)] && Tos(done + [Arg(t)]) == Tos(done)
  {
    ArgsCat(done, [Arg(t)]);
    TosCat(done, [Arg(t)]);
    assert [Arg(t)][1..] == [];
    assert Args([Arg(t)]) == [SpanOf(t)] + Args([]) && Tos([Arg(t)]) == [] + Tos([]);
    assert Tos(done) + [] == Tos(done);
  }
}
