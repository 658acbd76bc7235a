/** The tokens of a command line: gettoken and peek of sh.c. The line ends at its NUL, which is
    at index |line|. */
module ShellTokens {

  /** A token: its kind as gettoken returns it ('a' for a word, '+' for >>) and the part
      line[q..eq] it came from. */
  datatype Tok = Tok(kind: char, q: nat, eq: nat)

  datatype Toks = End | T(first: Tok, rest: Toks)

  predicate White(c: char) {
    c == ' ' || c == '\t' || c == '\r' || c == '\n' || c == 11 as char
  }

  predicate Symbol(c: char) {
    c == '<' || c == '|' || c == '>' || c == '&' || c == ';' || c == '(' || c == ')'
  }

  /** The first position from s on that is not white space. */
  function Skip(line: seq<char>, s: nat): (r: nat)
    requires s <= |line|
    ensures s <= r <= |line| && (r < |line| ==> !White(line[r])) && forall k :: s <= k < r ==> White(line[k])
    decreases |line| - s
  {
    if s < |line| && White(line[s]) then Skip(line, s + 1) else s
  }

  /** The first position from s on that does not belong to a word. */
  function WordEnd(line: seq<char>, s: nat): (r: nat)
    requires s <= |line|
    ensures s <= r <= |line| && (r < |line| ==> White(line[r]) || Symbol(line[r]))
    ensures forall k :: s <= k < r ==> !White(line[k]) && !Symbol(line[k])
    decreases |line| - s
  {
    if s < |line| && !White(line[s]) && !Symbol(line[s]) then WordEnd(line, s + 1) else s
  }

  /** The token that starts at q, which is not white space. */
  function TokAt(line: seq<char>, q: nat): (t: Tok)
    requires q < |line| && !White(line[q])
    ensures t.q == q < t.eq <= |line| && (t.kind == 'a' <==> !Symbol(line[q]))
    ensures t.kind == 'a' ==> t.eq == WordEnd(line, q)
    ensures t.kind in {'a', '+', '<', '|', '>', '&', ';', '(', ')'}
  {
    if !Symbol(line[q]) then Tok('a', q, WordEnd(line, q + 1))
    else if line[q] == '>' && q + 1 < |line| && line[q + 1] == '>' then Tok('+', q, q + 2)
    else Tok(line[q], q, q + 1)
  }

  /** The tokens from s on. */
  function Tokens(line: seq<char>, s: nat): Toks
    requires s <= |line|
    decreases |line| - s
  {
    var q := Skip(line, s);
    if q == |line| then End else T(TokAt(line, q), Tokens(line, TokAt(line, q).eq))
  }

  /** White space in front does not matter. */
  lemma TokensSkip(line: seq<char>, s: nat)
    requires s <= |line|
    ensures Tokens(line, Skip(line, s)) == Tokens(line, s)
  {
    var q := Skip(line, s);
    assert Skip(line, q) == q;
  }

  predicate Among(t: Tok, ts: Toks) {
    ts.T? && (t == ts.first || Among(t, ts.rest))
  }

  lemma {:induction false} TokenInLine(line: seq<char>, s: nat, t: Tok)
    requires s <= |line| && Among(t, Tokens(line, s))
    ensures s <= t.q < t.eq <= |line| && !White(line[t.q]) && t == TokAt(line, t.q)
    decreases |line| - s
  {
    var q := Skip(line, s);
    if t != TokAt(line, q) {
      TokenInLine(line, TokAt(line, q).eq, t);
    }
  }

  /** Two words never touch: the byte behind a word is inside no word. */
  lemma {:induction false} WordsApart(line: seq<char>, s: nat, t: Tok, u: Tok)
    requires s <= |line| && Among(t, Tokens(line, s)) && Among(u, Tokens(line, s)) && t.kind == 'a' && u.kind == 'a'
    ensures t == u || t.eq < u.q || u.eq < t.q
    decreases |line| - s
  {
    var f := TokAt(line, Skip(line, s));
    if t == f && u != f {
      Follows(line, f, u);
    } else if u == f && t != f {
      Follows(line, f, t);
    } else if t != f && u != f {
      WordsApart(line, f.eq, t, u);
    }
  }

  lemma Follows(line: seq<char>, f: Tok, u: Tok)
    requires f.q < |line| && !White(line[f.q]) && f == TokAt(line, f.q) && f.kind == 'a'
    requires Among(u, Tokens(line, f.eq)) && u.kind == 'a'
    ensures f.eq < u.q
  {
    TokenInLine(line, f.eq, u);
  }

  // ---------------------------------------------------------------- the lexer

  /** The first loop of gettoken, and peek's. */
  method SkipWhite(line: seq<char>, s: nat) returns (r: nat)
    requires s <= |line|
    ensures r == Skip(line, s)
  {
    r := s;
    while r < |line| && White(line[r])
      invariant s <= r <= |line| && Skip(line, r) == Skip(line, s)
    {
      r := r + 1;
    }
  }

  /** gettoken: the kind of the next token, 0 at the end, its place and where the next one
      starts. */
  method GetToken(line: seq<char>, s: nat) returns (kind: char, q: nat, eq: nat, next: nat)
    requires s <= |line|
    ensures s <= q <= eq <= next <= |line|
    ensures Tokens(line, s) == End ==> kind == 0 as char && next == |line|
    ensures Tokens(line, s) != End ==> Tokens(line, s) == T(Tok(kind, q, eq), Tokens(line, next)) && s < next
  {
    q := SkipWhite(line, s);
    if q == |line| { return 0 as char, q, q, q; }
    kind := line[q];
    eq := q;
    if kind == '|' || kind == '(' || kind == ')' || kind == ';' || kind == '&' || kind == '<' {
      eq := eq + 1;
    } else if kind == '>' {
      eq := eq + 1;
      if eq < |line| && line[eq] == '>' {
        kind := '+';
        eq := eq + 1;
      }
    } else {
      kind := 'a';
      while eq < |line| && !White(line[eq]) && !Symbol(line[eq])
        invariant q <= eq <= |line| && WordEnd(line, eq) == WordEnd(line, q)
      {
        eq := eq + 1;
      }
    }
    assert Tok(kind, q, eq) == TokAt(line, q);
    next := SkipWhite(line, eq);
    TokensSkip(line, eq);
  }

  /** peek: does the next token start with one of the characters in toks? */
  method Peek(line: seq<char>, s: nat, toks: seq<char>) returns (found: bool, next: nat)
    requires s <= |line| && forall c :: c in toks ==> Symbol(c)
    ensures s <= next <= |line| && Tokens(line, next) == Tokens(line, s) && (next == |line| <==> Tokens(line, s) == End)
    ensures found <==> Tokens(line, s) != End && First(Tokens(line, s).first) in toks
  {
    next := SkipWhite(line, s);
    TokensSkip(line, s);
    found := next < |line| && line[next] in toks;
  }

  /** The character a symbol starts with. */
  function First(t: Tok): char {
    if t.kind == '+' then '>' else t.kind
  }
}
