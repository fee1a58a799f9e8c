/** gettoken and peek of sh.c, against the list of tokens of the line. */
module ShellLex {

  predicate IsSpace(c: char) {
    c == ' ' || c == '\t' || c == '\r' || c == '\n' || c == '\U{0B}'
  }

  predicate IsSymbol(c: char) {
    c == '<' || c == '|' || c == '>' || c == '&' || c == ';' || c == '(' || c == ')'
  }

  const NUL: char := '\0'

  /** A C string: no NUL inside. */
  predicate IsLine(line: seq<char>) {
    forall i :: 0 <= i < |line| ==> line[i] != NUL
  }

  /** `*s` in the buffer, whose last byte is NUL. */
  function CharAt(line: seq<char>, s: nat): char
    requires s <= |line|
  {
    if s < |line| then line[s] else NUL
  }

  /** kind is the symbol, '+' for >>, 'a' for a word. */
  datatype Token = Token(kind: char, start: nat, end: nat)

  function SkipSpace(line: seq<char>, s: nat): (t: nat)
    requires s <= |line|
    ensures s <= t <= |line| && (t < |line| ==> !IsSpace(line[t]))
    decreases |line| - s
  {
    if s < |line| && IsSpace(line[s]) then SkipSpace(line, s + 1) else s
  }

  lemma {:induction false} SkipsSpaces(line: seq<char>, s: nat, i: nat)
    requires s <= |line| && s <= i < SkipSpace(line, s)
    ensures i < |line| && IsSpace(line[i])
    decreases |line| - s
  {
    if i > s {
      SkipsSpaces(line, s + 1, i);
    }
  }

  function WordEnd(line: seq<char>, s: nat): (t: nat)
    requires s <= |line|
    ensures s <= t <= |line|
    decreases |line| - s
  {
    if s < |line| && !IsSpace(line[s]) && !IsSymbol(line[s]) then WordEnd(line, s + 1) else s
  }

  lemma {:induction false} WordChars(line: seq<char>, s: nat, i: nat)
    requires s <= |line| && s <= i <= WordEnd(line, s)
    ensures i < WordEnd(line, s) ==> !IsSpace(line[i]) && !IsSymbol(line[i])
    ensures i == WordEnd(line, s) < |line| ==> IsSpace(line[i]) || IsSymbol(line[i])
    decreases |line| - s
  {
    if i > s {
      WordChars(line, s + 1, i);
    }
  }

  /** The token that starts at a character that is not a space. */
  function TokenAt(line: seq<char>, t: nat): (tok: Token)
    requires t < |line| && !IsSpace(line[t])
    ensures tok.start == t < tok.end <= |line|
  {
    if line[t] == '>' then
      if CharAt(line, t + 1) == '>' then Token('+', t, t + 2) else Token('>', t, t + 1)
    else if IsSymbol(line[t]) then Token(line[t], t, t + 1)
    else Token('a', t, WordEnd(line, t))
  }

  /** The tokens from position s on. */
  function Lex(line: seq<char>, s: nat): seq<Token>
    requires s <= |line|
    decreases |line| - s
  {
    var t := SkipSpace(line, s);
    if t == |line| then [] else [TokenAt(line, t)] + Lex(line, TokenAt(line, t).end)
  }

  lemma SkipTwice(line: seq<char>, s: nat)
    requires s <= |line|
    ensures SkipSpace(line, SkipSpace(line, s)) == SkipSpace(line, s)
    ensures Lex(line, SkipSpace(line, s)) == Lex(line, s)
  {
    var t := SkipSpace(line, s);
    assert SkipSpace(line, t) == t;
  }

  /** Tokens follow one another without overlap, and between them there are only spaces. */
  lemma {:induction false} LexApart(line: seq<char>, s: nat, i: nat)
    requires s <= |line| && i < |Lex(line, s)|
    ensures s <= Lex(line, s)[i].start < Lex(line, s)[i].end <= |line|
    ensures i > 0 ==> Lex(line, s)[i - 1].end <= Lex(line, s)[i].start
    ensures forall k :: (if i == 0 then s else Lex(line, s)[i - 1].end) <= k < Lex(line, s)[i].start ==>
      IsSpace(line[k])
    decreases |line| - s
  {
    var t := SkipSpace(line, s);
    var tok := TokenAt(line, t);
    forall k | s <= k < t ensures IsSpace(line[k]) {
      SkipsSpaces(line, s, k);
    }
    if i > 0 {
      LexApart(line, tok.end, i - 1);
      assert Lex(line, s)[i] == Lex(line, tok.end)[i - 1];
      if i > 1 {
        assert Lex(line, s)[i - 1] == Lex(line, tok.end)[i - 2];
      }
    }
  }

  /** Every character that is not a space is in a token. */
  lemma {:induction false} LexCovers(line: seq<char>, s: nat, k: nat) returns (i: nat)
    requires s <= k < |line| && !IsSpace(line[k])
    ensures i < |Lex(line, s)| && Lex(line, s)[i].start <= k < Lex(line, s)[i].end
    decreases |line| - s
  {
    var t := SkipSpace(line, s);
    if k < t {
      SkipsSpaces(line, s, k);
    }
    var tok := TokenAt(line, t);
    if k < tok.end {
      i := 0;
    } else {
      i := LexCovers(line, tok.end, k);
      assert Lex(line, s)[i + 1] == Lex(line, tok.end)[i];
      i := i + 1;
    }
  }

  /** A word has no spaces and no symbols, and is as long as it can be. */
  lemma {:induction false} LexWord(line: seq<char>, s: nat, i: nat)
    requires s <= |line| && i < |Lex(line, s)| && Lex(line, s)[i].kind == 'a'
    ensures s <= Lex(line, s)[i].start < Lex(line, s)[i].end <= |line|
    ensures forall k :: Lex(line, s)[i].start <= k < Lex(line, s)[i].end ==> !IsSpace(line[k]) && !IsSymbol(line[k])
    ensures var e := Lex(line, s)[i].end; e == |line| || IsSpace(line[e]) || IsSymbol(line[e])
    decreases |line| - s
  {
    var t := SkipSpace(line, s);
    if i > 0 {
      var tok := TokenAt(line, t);
      LexWord(line, tok.end, i - 1);
      assert Lex(line, s)[i] == Lex(line, tok.end)[i - 1];
    } else {
      forall k | t <= k < WordEnd(line, t) ensures !IsSpace(line[k]) && !IsSymbol(line[k]) {
        WordChars(line, t, k);
      }
      WordChars(line, t, WordEnd(line, t));
    }
  }

  /** A symbol stands for itself, two >> together for '+'. */
  lemma {:induction false} LexSymbol(line: seq<char>, s: nat, i: nat)
    requires s <= |line| && i < |Lex(line, s)| && Lex(line, s)[i].kind != 'a'
    ensures var tok := Lex(line, s)[i];
            && s <= tok.start < tok.end <= |line|
            && if tok.kind == '+' then
                 tok.end == tok.start + 2 && line[tok.start] == '>' && line[tok.start + 1] == '>'
               else
                 && tok.end == tok.start + 1 && tok.kind == line[tok.start] && IsSymbol(tok.kind)
                 && !(tok.kind == '>' && tok.end < |line| && line[tok.end] == '>')
    decreases |line| - s
  {
    var tok := TokenAt(line, SkipSpace(line, s));
    if i > 0 {
      LexSymbol(line, tok.end, i - 1);
      assert Lex(line, s)[i] == Lex(line, tok.end)[i - 1];
    }
  }

  /** The loop that skips spaces. */
  method Skip(line: seq<char>, s: nat) returns (t: nat)
    requires s <= |line|
    ensures t == SkipSpace(line, s)
  {
    t := s;
    while t < |line| && IsSpace(line[t])
      invariant t <= |line| && SkipSpace(line, t) == SkipSpace(line, s)
    {
      t := t + 1;
    }
  }

  /**
   `gettoken`: the next token and the position after it and the spaces that follow; kind NUL at
   the end of the line.
   */
  method GetToken(line: seq<char>, s: nat) returns (ret: char, q: nat, eq: nat, s': nat)
    requires IsLine(line) && s <= |line|
    ensures s' <= |line|
    ensures Lex(line, s) == [] ==> ret == NUL && q == eq == s' == |line|
    ensures Lex(line, s) != [] ==> Token(ret, q, eq) == Lex(line, s)[0] && Lex(line, s') == Lex(line, s)[1..]
    ensures ret == NUL <==> Lex(line, s) == []
  {
    var t := Skip(line, s);
    q := t;
    ret := CharAt(line, t);
    if ret == NUL {
    } else if ret == '|' || ret == '(' || ret == ')' || ret == ';' || ret == '&' || ret == '<' {
      t := t + 1;
    } else if ret == '>' {
      t := t + 1;
      if CharAt(line, t) == '>' {
        ret := '+';
        t := t + 1;
      }
    } else {
      ret := 'a';
      while t < |line| && !IsSpace(line[t]) && !IsSymbol(line[t])
        invariant q <= t <= |line| && WordEnd(line, t) == WordEnd(line, q)
      {
        t := t + 1;
      }
    }
    eq := t;
    s' := Skip(line, t);
    SkipTwice(line, t);
  }

  /** Whether the first token starts with one of `toks`. */
  predicate Starts(tokens: seq<Token>, toks: seq<char>) {
    tokens != [] && (if tokens[0].kind == '+' then '>' in toks else tokens[0].kind != 'a' && tokens[0].kind in toks)
  }

  /** `peek`, for symbols. */
  method Peek(line: seq<char>, s: nat, toks: seq<char>) returns (found: bool, s': nat)
    requires IsLine(line) && s <= |line| && forall i :: 0 <= i < |toks| ==> IsSymbol(toks[i])
    ensures s <= s' <= |line| && Lex(line, s') == Lex(line, s) && (Lex(line, s) == [] ==> s' == |line|)
    ensures found == Starts(Lex(line, s), toks)
  {
    s' := Skip(line, s);
    SkipTwice(line, s);
    var c := CharAt(line, s');
    found := c != NUL && c in toks;
  }
}
