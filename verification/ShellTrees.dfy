/** Facts about the trees of sh.c: building them in the parser's order, and the strings they
    name. */
module ShellTrees {
  import opened ShellTokens
  import opened ShellGrammar

  // ---------------------------------------------------------------- building in order

  /** Store one more argument in the execcmd inside a chain of redirections. */
  function PushArg(c: Cmd, t: Tok): Cmd {
    match c
    case ExecCmd(argv) => ExecCmd(argv + [t])
    case RedirCmd(d, file, mode, fd) => RedirCmd(PushArg(d, t), file, mode, fd)
    case _ => c
  }

  /** parseexec's loop on tokens, with the tree so far. */
  function WithItems(ts: Toks, n: nat, c: Cmd): Res<Cmd>
    decreases ts
  {
    if StopsExec(ts) then Ok(c, ts)
    else if IsRedir(ts.first) then
      (if !Starts(ts.rest, 'a') then Err else WithItems(ts.rest.rest, n, RedirTo(c, ts.first, ts.rest.first)))
    else if ts.first.kind != 'a' || n + 1 >= MAXARGS then Err
    else WithItems(ts.rest, n + 1, PushArg(c, ts.first))
  }

  /** parseredirs's loop on tokens. */
  function WithRedirs(ts: Toks, c: Cmd): Res<Cmd>
    decreases ts
  {
    if !StartsRedir(ts) then Ok(c, ts)
    else if !Starts(ts.rest, 'a') then Err
    else WithRedirs(ts.rest.rest, RedirTo(c, ts.first, ts.rest.first))
  }

  lemma {:induction false} RedirsFirst(ts: Toks, n: nat, c: Cmd)
    ensures match WithRedirs(ts, c) case Err => WithItems(ts, n, c) == Err case Ok(d, rest) => WithItems(ts, n, c) == WithItems(rest, n, d) && !StartsRedir(rest)
    decreases ts
  {
    if StartsRedir(ts) && Starts(ts.rest, 'a') {
      RedirsFirst(ts.rest.rest, n, RedirTo(c, ts.first, ts.rest.first));
    }
  }

  /** The same tree as PRedirs and Wrap. */
  lemma {:induction false} RedirsIs(ts: Toks, c: Cmd)
    ensures match PRedirs(ts) case Err => WithRedirs(ts, c) == Err case Ok(items, rest) => WithRedirs(ts, c) == Ok(Wrap(c, items), rest)
    decreases ts
  {
    if StartsRedir(ts) && Starts(ts.rest, 'a') {
      RedirsIs(ts.rest.rest, RedirTo(c, ts.first, ts.rest.first));
    }
  }

  /** A chain of redirections around an execcmd. */
  predicate Chain(c: Cmd) {
    match c case ExecCmd(_) => true case RedirCmd(d, _, _, _) => Chain(d) case _ => false
  }

  /** All the words of the items stored in the execcmd inside c. */
  function Fill(c: Cmd, items: Items): Cmd
    decreases items
  {
    match items
    case NoItem => c
    case Word(t, more) => Fill(PushArg(c, t), more)
    case Redir(op, file, more) => Fill(RedirTo(c, op, file), more)
  }

  lemma {:induction false} ItemsIs(ts: Toks, n: nat, c: Cmd)
    ensures match PItems(ts, n) case Err => WithItems(ts, n, c) == Err case Ok(items, rest) => WithItems(ts, n, c) == Ok(Fill(c, items), rest)
    decreases ts
  {
    if !StopsExec(ts) {
      if IsRedir(ts.first) {
        if Starts(ts.rest, 'a') {
          ItemsIs(ts.rest.rest, n, RedirTo(c, ts.first, ts.rest.first));
        }
      } else if ts.first.kind == 'a' && n + 1 < MAXARGS {
        ItemsIs(ts.rest, n + 1, PushArg(c, ts.first));
      }
    }
  }

  function PushAll(c: Cmd, ts: seq<Tok>): Cmd
    decreases |ts|
  {
    if ts == [] then c else PushAll(PushArg(c, ts[0]), ts[1..])
  }

  lemma {:induction false} PushAllRedir(c: Cmd, op: Tok, file: Tok, ts: seq<Tok>)
    ensures PushAll(RedirTo(c, op, file), ts) == RedirTo(PushAll(c, ts), op, file)
    decreases |ts|
  {
    if ts != [] {
      PushAllRedir(PushArg(c, ts[0]), op, file, ts[1..]);
    }
  }

  /** Arguments and redirections can be stored in any order. */
  lemma {:induction false} FillIsWrap(c: Cmd, items: Items)
    requires Chain(c)
    ensures Fill(c, items) == Wrap(PushAll(c, Words(items)), items)
    decreases items
  {
    match items
    case NoItem =>
    case Word(t, more) =>
      PushKeepsChain(c, t);
      FillIsWrap(PushArg(c, t), more);
      assert Words(items)[1..] == Words(more);
    case Redir(op, file, more) =>
      FillIsWrap(RedirTo(c, op, file), more);
      PushAllRedir(c, op, file, Words(more));
  }

  lemma {:induction false} PushKeepsChain(c: Cmd, t: Tok)
    requires Chain(c)
    ensures Chain(PushArg(c, t))
    decreases c
  {
    if c.RedirCmd? {
      PushKeepsChain(c.cmd, t);
    }
  }

  lemma {:induction false} PushAllExec(argv: seq<Tok>, ts: seq<Tok>)
    ensures PushAll(ExecCmd(argv), ts) == ExecCmd(argv + ts)
    decreases |ts|
  {
    if ts == [] {
      assert argv + [] == argv;
    } else {
      PushAllExec(argv + [ts[0]], ts[1..]);
      assert argv + [ts[0]] + ts[1..] == argv + ts;
    }
  }

  /** parseexec builds the tree of the derivation. */
  lemma ExecIs(ts: Toks)
    ensures match PItems(ts, 0)
      case Err => WithItems(ts, 0, ExecCmd([])) == Err
      case Ok(items, rest) => WithItems(ts, 0, ExecCmd([])) == Ok(ExecTree(Simple(items)), rest)
  {
    ItemsIs(ts, 0, ExecCmd([]));
    var r := PItems(ts, 0);
    if r.Ok? {
      FillIsWrap(ExecCmd([]), r.v);
      PushAllExec([], Words(r.v));
      assert [] + Words(r.v) == Words(r.v);
    }
  }

  // ---------------------------------------------------------------- strings

  /** t is an argument or a file name somewhere in c. */
  predicate Names(c: Cmd, t: Tok) {
    match c
    case ExecCmd(argv) => t in argv
    case RedirCmd(d, file, _, _) => t == file || Names(d, t)
    case PipeCmd(l, r) => Names(l, t) || Names(r, t)
    case ListCmd(l, r) => Names(l, t) || Names(r, t)
    case BackCmd(d) => Names(d, t)
  }

  /** Every execcmd leaves room for the 0 behind its arguments. */
  predicate ArgsFit(c: Cmd) {
    match c
    case ExecCmd(argv) => |argv| < MAXARGS
    case RedirCmd(d, _, _, _) => ArgsFit(d)
    case PipeCmd(l, r) => ArgsFit(l) && ArgsFit(r)
    case ListCmd(l, r) => ArgsFit(l) && ArgsFit(r)
    case BackCmd(d) => ArgsFit(d)
  }

  /** A word among the tokens. */
  predicate WordIn(t: Tok, ts: Toks) {
    t.kind == 'a' && Among(t, ts)
  }

  lemma {:induction false} ItemTokens(items: Items, ts: Toks, t: Tok)
    requires ItemsOk(items)
    ensures Among(t, ts) ==> Among(t, ItemToks(items, ts))
    ensures t in Words(items) ==> WordIn(t, ItemToks(items, ts))
    ensures |Words(items)| == Count(items)
  {
    match items
    case NoItem =>
    case Word(_, more) => ItemTokens(more, ts, t);
    case Redir(_, _, more) => ItemTokens(more, ts, t);
  }

  lemma {:induction false} WrapNames(c: Cmd, items: Items, ts: Toks, t: Tok)
    requires ItemsOk(items)
    ensures Names(Wrap(c, items), t) ==> Names(c, t) || WordIn(t, ItemToks(items, ts))
    ensures ArgsFit(c) ==> ArgsFit(Wrap(c, items))
    decreases items
  {
    match items
    case NoItem =>
    case Word(_, more) => WrapNames(c, more, ts, t);
    case Redir(op, file, more) =>
      WrapNames(RedirTo(c, op, file), more, ts, t);
      var rest := T(file, ItemToks(more, ts));
      assert ItemToks(items, ts) == T(op, rest);
      assert Among(t, rest) ==> Among(t, T(op, rest));
  }

  lemma {:induction false} BacksNames(c: Cmd, amps: Amps, ts: Toks, t: Tok)
    ensures Names(Backs(c, amps), t) ==> Names(c, t)
    ensures ArgsFit(c) ==> ArgsFit(Backs(c, amps))
    ensures Among(t, ts) ==> Among(t, AmpToks(amps, ts))
    decreases amps
  {
    if amps.Amp? {
      BacksNames(BackCmd(c), amps.more, ts, t);
    }
  }

  /** The strings of a tree are words of the line, and there are never too many arguments. */
  lemma {:induction false} LineNames(l: Line, ts: Toks, t: Tok)
    requires LineOk(l)
    ensures ArgsFit(LineTree(l)) && (Names(LineTree(l), t) ==> WordIn(t, LineToks(l, ts)))
    ensures Among(t, ts) ==> Among(t, LineToks(l, ts))
    decreases l
  {
    var tail := match l.tail case Stop => ts case Semi(semi, line) => T(semi, LineToks(line, ts));
    PipeNames(l.pipe, AmpToks(l.amps, tail), t);
    BacksNames(PipeTree(l.pipe), l.amps, tail, t);
    if l.tail.Semi? {
      LineNames(l.tail.line, ts, t);
    }
  }

  lemma {:induction false} PipeNames(p: Pipe, ts: Toks, t: Tok)
    requires PipeOk(p)
    ensures ArgsFit(PipeTree(p)) && (Names(PipeTree(p), t) ==> WordIn(t, PipeToks(p, ts)))
    ensures Among(t, ts) ==> Among(t, PipeToks(p, ts))
    decreases p
  {
    match p
    case Last(e) => ExecNames(e, ts, t);
    case Bar(e, bar, rest) =>
      ExecNames(e, T(bar, PipeToks(rest, ts)), t);
      PipeNames(rest, ts, t);
  }

  lemma {:induction false} ExecNames(e: Exec, ts: Toks, t: Tok)
    requires ExecOk(e)
    ensures ArgsFit(ExecTree(e)) && (Names(ExecTree(e), t) ==> WordIn(t, ExecToks(e, ts)))
    ensures Among(t, ts) ==> Among(t, ExecToks(e, ts))
    decreases e
  {
    match e
    case Simple(items) =>
      ItemTokens(items, ts, t);
      WrapNames(ExecCmd(Words(items)), items, ts, t);
    case Block(open, line, close, redirs) =>
      ItemTokens(redirs, ts, t);
      WrapNames(LineTree(line), redirs, ts, t);
      LineNames(line, T(close, ItemToks(redirs, ts)), t);
  }
}
