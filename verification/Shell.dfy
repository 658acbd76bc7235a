/** The parser of sh.c, in place on its cursor, and nulterminate on the line's buffer. */
module Shell {
  import opened ShellTokens
  import opened ShellGrammar
  import opened ShellTrees
  import opened ShellMeaning

  class Parser {
    const line: seq<char>
    var s: nat

    constructor (line: seq<char>)
      ensures s == 0 && this.line == line
    {
      this.line, s := line, 0;
    }

    /** Tokens still to come. */
    function Left(): Toks
      requires s <= |line|
      reads this
    {
      Tokens(line, s)
    }

    /** gettoken on the cursor. */
    method Next() returns (kind: char, q: nat, eq: nat)
      requires s <= |line|
      modifies this`s
      ensures old(s) <= s <= |line|
      ensures old(Left()) == End ==> kind == 0 as char && Left() == End
      ensures old(Left()) != End ==> old(Left()) == T(Tok(kind, q, eq), Left()) && old(s) < s
    {
      var next;
      kind, q, eq, next := GetToken(line, s);
      s := next;
    }

    /** peek on the cursor. */
    method Sees(toks: seq<char>) returns (found: bool)
      requires s <= |line| && forall c :: c in toks ==> Symbol(c)
      modifies this`s
      ensures old(s) <= s <= |line| && Left() == old(Left()) && (s == |line| <==> Left() == End)
      ensures found <==> Left() != End && First(Left().first) in toks
    {
      var next;
      found, next := Peek(line, s, toks);
      s := next;
    }

    /** One redirection. Not ok is a panic, here and below. */
    method ParseRedir(c: Cmd) returns (ok: bool, cmd: Cmd)
      requires s <= |line| && StartsRedir(Left())
      modifies this`s
      ensures old(s) <= s <= |line| && ok == Starts(old(Left()).rest, 'a')
      ensures ok ==> old(s) < s && old(Left()).rest.rest == Left() && cmd == RedirTo(c, old(Left()).first, old(Left()).rest.first)
    {
      var tok, _, _ := Next();
      var kind, q, eq := Next();
      if kind != 'a' { return false, c; }
      var file := Tok(kind, q, eq);
      ok := true;
      if tok == '<' {
        cmd := RedirCmd(c, file, O_RDONLY, 0);
      } else {
        cmd := RedirCmd(c, file, O_CREATED, 1);
      }
    }

    /** parseredirs. */
    method ParseRedirs(c: Cmd) returns (ok: bool, cmd: Cmd)
      requires s <= |line|
      modifies this`s
      ensures old(s) <= s <= |line| && ok == WithRedirs(old(Left()), c).Ok?
      ensures ok ==> WithRedirs(old(Left()), c) == Ok(cmd, Left())
    {
      cmd := c;
      var more := Sees(['<', '>']);
      while more
        invariant old(s) <= s <= |line| && WithRedirs(Left(), cmd) == WithRedirs(old(Left()), c)
        invariant more <==> StartsRedir(Left())
        decreases |line| - s
      {
        ok, cmd := ParseRedir(cmd);
        if !ok { return; }
        more := Sees(['<', '>']);
      }
      ok := true;
    }

    /** One word of parseexec's loop and the redirections behind it. */
    method ParseArg(c: Cmd, argc: nat) returns (ok: bool, cmd: Cmd)
      requires s <= |line| && argc < MAXARGS && Left() != End && !StopsExec(Left()) && !StartsRedir(Left())
      modifies this`s
      ensures old(s) <= s <= |line| && (!ok ==> WithItems(old(Left()), argc, c) == Err)
      ensures ok ==> old(s) < s && argc + 1 < MAXARGS && !StartsRedir(Left())
      ensures ok ==> WithItems(old(Left()), argc, c) == WithItems(Left(), argc + 1, cmd)
    {
      var tok, q, eq := Next();
      if tok != 'a' { return false, c; }
      if argc + 1 >= MAXARGS { return false, c; }
      cmd := PushArg(c, Tok(tok, q, eq));
      RedirsFirst(Left(), argc + 1, cmd);
      ok, cmd := ParseRedirs(cmd);
    }

    /** Whether parseexec's loop has to stop: at one of |)&; or at the end. */
    method AtStop() returns (stop: bool)
      requires s <= |line|
      modifies this`s
      ensures old(s) <= s <= |line| && Left() == old(Left()) && stop == StopsExec(Left())
    {
      stop := Sees(['|', ')', '&', ';']);
      stop := stop || s == |line|;
    }

    /** parseexec's loop. */
    method ParseArgs(c: Cmd) returns (ok: bool, cmd: Cmd)
      requires s <= |line| && !StartsRedir(Left())
      modifies this`s
      ensures old(s) <= s <= |line| && ok == WithItems(old(Left()), 0, c).Ok?
      ensures ok ==> WithItems(old(Left()), 0, c) == Ok(cmd, Left())
    {
      cmd := c;
      var argc := 0;
      var stop := AtStop();
      while !stop
        invariant old(s) <= s <= |line| && argc < MAXARGS && WithItems(Left(), argc, cmd) == WithItems(old(Left()), 0, c)
        invariant !StartsRedir(Left()) && stop == StopsExec(Left())
        decreases |line| - s
      {
        ok, cmd := ParseArg(cmd, argc);
        if !ok { return; }
        argc := argc + 1;
        stop := AtStop();
      }
      ok := true;
    }

    /** parseexec without a block. */
    method ParseSimple() returns (ok: bool, cmd: Cmd)
      requires s <= |line|
      modifies this`s
      ensures old(s) <= s <= |line| && ok == PItems(old(Left()), 0).Ok?
      ensures ok ==> cmd == ExecTree(Simple(PItems(old(Left()), 0).v)) && Left() == PItems(old(Left()), 0).rest
    {
      ExecIs(Left());
      cmd := ExecCmd([]);
      RedirsFirst(Left(), 0, cmd);
      ok, cmd := ParseRedirs(cmd);
      if !ok { return; }
      ok, cmd := ParseArgs(cmd);
    }

    /** parseblock, at its opening parenthesis. */
    method ParseBlock() returns (ok: bool, cmd: Cmd)
      requires s <= |line| && Starts(Left(), '(')
      modifies this`s
      ensures old(s) <= s <= |line| && ok == PBlock(old(Left())).Ok?
      ensures ok ==> cmd == ExecTree(PBlock(old(Left())).v) && Left() == PBlock(old(Left())).rest
      decreases |line| - s, 0
    {
      var open := Sees(['(']);
      if !open { return false, ExecCmd([]); }
      var _, _, _ := Next();
      ok, cmd := ParseLine();
      if !ok { return; }
      var close := Sees([')']);
      if !close { return false, cmd; }
      var _, _, _ := Next();
      RedirsIs(Left(), cmd);
      ok, cmd := ParseRedirs(cmd);
    }

    /** parseexec. */
    method ParseExec() returns (ok: bool, cmd: Cmd)
      requires s <= |line|
      modifies this`s
      ensures old(s) <= s <= |line| && ok == PExec(old(Left())).Ok?
      ensures ok ==> cmd == ExecTree(PExec(old(Left())).v) && Left() == PExec(old(Left())).rest
      decreases |line| - s, 1
    {
      var open := Sees(['(']);
      if open {
        ok, cmd := ParseBlock();
      } else {
        ok, cmd := ParseSimple();
      }
    }

    /** parsepipe. */
    method ParsePipe() returns (ok: bool, cmd: Cmd)
      requires s <= |line|
      modifies this`s
      ensures old(s) <= s <= |line| && ok == PPipe(old(Left())).Ok?
      ensures ok ==> cmd == PipeTree(PPipe(old(Left())).v) && Left() == PPipe(old(Left())).rest
      decreases |line| - s, 2
    {
      ok, cmd := ParseExec();
      if !ok { return; }
      var bar := Sees(['|']);
      if bar {
        var _, _, _ := Next();
        var right;
        ok, right := ParsePipe();
        cmd := PipeCmd(cmd, right);
      }
    }

    /** parseline's loop. */
    method ParseAmps(c: Cmd) returns (cmd: Cmd)
      requires s <= |line|
      modifies this`s
      ensures old(s) <= s <= |line| && cmd == Backs(c, PAmps(old(Left())).v) && Left() == PAmps(old(Left())).rest
    {
      cmd := c;
      var amp := Sees(['&']);
      while amp
        invariant old(s) <= s <= |line| && (amp <==> Starts(Left(), '&'))
        invariant Backs(cmd, PAmps(Left()).v) == Backs(c, PAmps(old(Left())).v) && PAmps(Left()).rest == PAmps(old(Left())).rest
        decreases |line| - s
      {
        var _, _, _ := Next();
        cmd := BackCmd(cmd);
        amp := Sees(['&']);
      }
    }

    /** parseline. */
    method ParseLine() returns (ok: bool, cmd: Cmd)
      requires s <= |line|
      modifies this`s
      ensures old(s) <= s <= |line| && ok == PLine(old(Left())).Ok?
      ensures ok ==> cmd == LineTree(PLine(old(Left())).v) && Left() == PLine(old(Left())).rest
      decreases |line| - s, 3
    {
      ok, cmd := ParsePipe();
      if !ok { return; }
      cmd := ParseAmps(cmd);
      var semi := Sees([';']);
      if semi {
        var _, _, _ := Next();
        var right;
        ok, right := ParseLine();
        cmd := ListCmd(cmd, right);
      }
    }
  }

  // ---------------------------------------------------------------- nulterminate

  /** The bytes that nulterminate zeroes. */
  predicate Zeroed(c: Cmd, k: nat) {
    match c
    case ExecCmd(argv) => exists i :: 0 <= i < |argv| && argv[i].eq == k
    case RedirCmd(d, file, _, _) => Zeroed(d, k) || file.eq == k
    case PipeCmd(l, r) => Zeroed(l, k) || Zeroed(r, k)
    case ListCmd(l, r) => Zeroed(l, k) || Zeroed(r, k)
    case BackCmd(d) => Zeroed(d, k)
  }

  /** They lie below n. */
  predicate EndsBelow(c: Cmd, n: nat) {
    match c
    case ExecCmd(argv) => forall i :: 0 <= i < |argv| ==> argv[i].eq < n
    case RedirCmd(d, file, _, _) => EndsBelow(d, n) && file.eq < n
    case PipeCmd(l, r) => EndsBelow(l, n) && EndsBelow(r, n)
    case ListCmd(l, r) => EndsBelow(l, n) && EndsBelow(r, n)
    case BackCmd(d) => EndsBelow(d, n)
  }

  lemma {:induction false} NamesBelow(c: Cmd, n: nat)
    requires forall t :: Names(c, t) ==> t.eq < n
    ensures EndsBelow(c, n)
    decreases c
  {
    match c
    case ExecCmd(argv) =>
      assert forall i :: 0 <= i < |argv| ==> Names(c, argv[i]);
    case RedirCmd(d, file, _, _) =>
      assert Names(c, file) && forall t :: Names(d, t) ==> Names(c, t);
      NamesBelow(d, n);
    case PipeCmd(l, r) =>
      assert forall t :: Names(l, t) || Names(r, t) ==> Names(c, t);
      NamesBelow(l, n);
      NamesBelow(r, n);
    case ListCmd(l, r) =>
      assert forall t :: Names(l, t) || Names(r, t) ==> Names(c, t);
      NamesBelow(l, n);
      NamesBelow(r, n);
    case BackCmd(d) =>
      assert forall t :: Names(d, t) ==> Names(c, t);
      NamesBelow(d, n);
  }

  /** Each of them is the end of a string. */
  lemma {:induction false} ZeroedNames(c: Cmd, k: nat) returns (t: Tok)
    requires Zeroed(c, k)
    ensures Names(c, t) && t.eq == k
    decreases c
  {
    match c
    case ExecCmd(argv) =>
      var i :| 0 <= i < |argv| && argv[i].eq == k;
      t := argv[i];
    case RedirCmd(d, file, _, _) =>
      if file.eq == k { t := file; } else { t := ZeroedNames(d, k); }
    case PipeCmd(l, r) =>
      if Zeroed(l, k) { t := ZeroedNames(l, k); } else { t := ZeroedNames(r, k); }
    case ListCmd(l, r) =>
      if Zeroed(l, k) { t := ZeroedNames(l, k); } else { t := ZeroedNames(r, k); }
    case BackCmd(d) => t := ZeroedNames(d, k);
  }

  lemma {:induction false} NamesZeroed(c: Cmd, t: Tok)
    requires Names(c, t)
    ensures Zeroed(c, t.eq)
    decreases c
  {
    match c
    case ExecCmd(argv) =>
      var i :| 0 <= i < |argv| && argv[i] == t;
    case RedirCmd(d, file, _, _) =>
      if t != file { NamesZeroed(d, t); }
    case PipeCmd(l, r) =>
      if Names(l, t) { NamesZeroed(l, t); } else { NamesZeroed(r, t); }
    case ListCmd(l, r) =>
      if Names(l, t) { NamesZeroed(l, t); } else { NamesZeroed(r, t); }
    case BackCmd(d) => NamesZeroed(d, t);
  }

  /** nulterminate zeroes the byte behind every string of the tree and no other. */
  method NulTerminate(buf: array<char>, c: Cmd)
    requires EndsBelow(c, buf.Length)
    modifies buf
    ensures forall k :: 0 <= k < buf.Length ==> buf[k] == if Zeroed(c, k) then 0 as char else old(buf[k])
    decreases c
  {
    match c
    case ExecCmd(argv) => NulArgs(buf, argv, c);
    case RedirCmd(d, file, _, _) =>
      NulTerminate(buf, d);
      buf[file.eq] := 0 as char;
    case PipeCmd(l, r) =>
      NulTerminate(buf, l);
      NulTerminate(buf, r);
    case ListCmd(l, r) =>
      NulTerminate(buf, l);
      NulTerminate(buf, r);
    case BackCmd(d) => NulTerminate(buf, d);
  }

  /** nulterminate's loop over the arguments. */
  method NulArgs(buf: array<char>, argv: seq<Tok>, ghost c: Cmd)
    requires c == ExecCmd(argv) && EndsBelow(c, buf.Length)
    modifies buf
    ensures forall k :: 0 <= k < buf.Length ==> buf[k] == if Zeroed(c, k) then 0 as char else old(buf[k])
  {
    var i := 0;
    while i < |argv|
      invariant i <= |argv|
      invariant forall k :: 0 <= k < buf.Length ==> buf[k] == if Zeroed(ExecCmd(argv[..i]), k) then 0 as char else old(buf[k])
    {
      NulNext(argv, i);
      buf[argv[i].eq] := 0 as char;
      i := i + 1;
    }
    assert argv[..i] == argv;
  }

  lemma NulNext(argv: seq<Tok>, i: nat)
    requires i < |argv|
    ensures forall k :: Zeroed(ExecCmd(argv[..i + 1]), k) <==> Zeroed(ExecCmd(argv[..i]), k) || k == argv[i].eq
  {
    var a, b := argv[..i], argv[..i + 1];
    forall k ensures Zeroed(ExecCmd(b), k) <==> Zeroed(ExecCmd(a), k) || k == argv[i].eq {
      if Zeroed(ExecCmd(a), k) {
        var j :| 0 <= j < |a| && a[j].eq == k;
        assert b[j].eq == k;
      }
      if k == argv[i].eq {
        assert b[i].eq == k;
      }
      if Zeroed(ExecCmd(b), k) {
        var j :| 0 <= j < |b| && b[j].eq == k;
        assert j < i ==> a[j].eq == k;
      }
    }
  }

  // ---------------------------------------------------------------- parsecmd

  /** The C string at t.q is exactly the token: its bytes are untouched and a NUL follows. */
  predicate IsString(buf: seq<char>, line: seq<char>, t: Tok) {
    t.q < t.eq <= |line| < |buf| && buf[t.q..t.eq] == line[t.q..t.eq] && buf[t.eq] == 0 as char
  }

  /** A byte that nulterminate zeroes is inside no string. */
  lemma ZeroIsOutside(line: seq<char>, l: Line, t: Tok, k: nat)
    requires LineOk(l) && Tokens(line, 0) == LineToks(l, End) && Names(LineTree(l), t) && Zeroed(LineTree(l), k)
    ensures !(t.q <= k < t.eq)
  {
    var u := ZeroedNames(LineTree(l), k);
    LineNames(l, End, t);
    LineNames(l, End, u);
    TokenInLine(line, 0, u);
    WordsApart(line, 0, t, u);
  }

  /** So every string of the tree is exactly its token. */
  lemma StringsSurvive(line: seq<char>, l: Line, after: seq<char>, t: Tok)
    requires LineOk(l) && Tokens(line, 0) == LineToks(l, End) && |after| > |line| && Names(LineTree(l), t)
    requires forall k :: 0 <= k <= |line| ==> after[k] == if Zeroed(LineTree(l), k) || k == |line| then 0 as char else line[k]
    ensures IsString(after, line, t)
  {
    LineNames(l, End, t);
    TokenInLine(line, 0, t);
    NamesZeroed(LineTree(l), t);
    forall k: nat | t.q <= k < t.eq ensures after[k] == line[k] {
      if Zeroed(LineTree(l), k) {
        ZeroIsOutside(line, l, t, k);
      }
    }
  }

  lemma TreeFits(line: seq<char>, l: Line)
    requires LineOk(l) && Tokens(line, 0) == LineToks(l, End)
    ensures EndsBelow(LineTree(l), |line| + 1)
  {
    forall t | Names(LineTree(l), t) ensures t.eq < |line| + 1 {
      LineNames(l, End, t);
      TokenInLine(line, 0, t);
    }
    NamesBelow(LineTree(l), |line| + 1);
  }

  /** The line means its tree, and no other. */
  lemma TreeIsMeant(line: seq<char>, l: Line, cmd: Cmd)
    requires LineOk(l) && Tokens(line, 0) == LineToks(l, End) && cmd == LineTree(l)
    ensures forall c :: MeansLine(c, Seq(Tokens(line, 0))) <==> c == cmd
    ensures Reads(cmd) == Args(Seq(Tokens(line, 0)))
    ensures forall kind :: Operator(kind) ==> Nodes(cmd, kind) == Kinds(Seq(Tokens(line, 0)), kind)
  {
    var ts := Tokens(line, 0);
    TreeMeans(l);
    LineComplete(l, End);
    forall c | MeansLine(c, Seq(ts)) ensures c == cmd {
      var l' := MeansOnce(c, ts);
    }
    LineReads(cmd, Seq(ts));
    forall kind | Operator(kind) ensures Nodes(cmd, kind) == Kinds(Seq(ts), kind) {
      LineNodes(cmd, Seq(ts), kind);
    }
  }

  /** strlen. */
  method StrLen(buf: array<char>) returns (n: nat)
    requires exists k :: 0 <= k < buf.Length && buf[k] == 0 as char
    ensures n < buf.Length && buf[n] == 0 as char && forall k :: 0 <= k < n ==> buf[k] != 0 as char
  {
    n := 0;
    while buf[n] != 0 as char
      invariant n < buf.Length && forall k :: 0 <= k < n ==> buf[k] != 0 as char
      decreases buf.Length - n
    {
      n := n + 1;
    }
  }

  /** cmd is the tree that the line means, and the only one: that of its derivation l. Read from left
      to right it has the words of the line but for the files, each `|` is one of its PipeCmds, each
      `;` one of its ListCmds and each `&` one of its BackCmds. */
  ghost predicate Parsed(line: seq<char>, cmd: Cmd, l: Line) {
    match l
    case Line(_, _, _) =>
      && LineOk(l) && Tokens(line, 0) == LineToks(l, End) && cmd == LineTree(l)
      && (forall c :: MeansLine(c, Seq(Tokens(line, 0))) <==> c == cmd)
      && Reads(cmd) == Args(Seq(Tokens(line, 0)))
      && (forall kind :: Operator(kind) ==> Nodes(cmd, kind) == Kinds(Seq(Tokens(line, 0)), kind))
  }

  /** The line means no tree, and has no derivation. */
  ghost predicate Meaningless(line: seq<char>) {
    (forall c :: !MeansLine(c, Seq(Tokens(line, 0)))) && forall l :: LineOk(l) ==> LineToks(l, End) != Tokens(line, 0)
  }

  lemma ErrIsMeaningless(line: seq<char>)
    requires PLine(Tokens(line, 0)).Err? || PLine(Tokens(line, 0)).rest != End
    ensures Meaningless(line)
  {
    forall l | LineOk(l) ensures LineToks(l, End) != Tokens(line, 0) {
      LineComplete(l, End);
    }
    forall c ensures !MeansLine(c, Seq(Tokens(line, 0))) {
      if MeansLine(c, Seq(Tokens(line, 0))) {
        var l := MeansOnce(c, Tokens(line, 0));
      }
    }
  }

  /** parsecmd up to nulterminate. */
  method ParseAll(line: seq<char>) returns (ok: bool, cmd: Cmd, ghost l: Line)
    ensures if ok then Parsed(line, cmd, l) else Meaningless(line)
  {
    var p := new Parser(line);
    ghost var r := PLine(Tokens(line, 0));
    ok, cmd := p.ParseLine();
    l := if r.Ok? then r.v else Line(Last(Simple(NoItem)), NoAmp, Stop);
    if ok {
      var _ := p.Sees([]);
      ok := p.s == |line|;
    }
    if ok {
      LineSound(Tokens(line, 0));
      TreeIsMeant(line, l, cmd);
    } else {
      ErrIsMeaningless(line);
    }
  }

  /** parsecmd's nulterminate. */
  method Terminate(buf: array<char>, cmd: Cmd, ghost line: seq<char>, ghost l: Line)
    requires LineOk(l) && Tokens(line, 0) == LineToks(l, End) && cmd == LineTree(l)
    requires |line| < buf.Length && line == buf[..|line|] && buf[|line|] == 0 as char
    modifies buf
    ensures forall t :: Names(cmd, t) ==> IsString(buf[..], line, t)
  {
    TreeFits(line, l);
    BelowMore(cmd, |line| + 1, buf.Length);
    NulTerminate(buf, cmd);
    forall t | Names(cmd, t) ensures IsString(buf[..], line, t) {
      StringsSurvive(line, l, buf[..], t);
    }
  }

  /** parsecmd: it returns exactly if the line, split into its tokens, means a tree. Then the tree is
      the one that it means, each of its strings is exactly its token, and no execcmd is full. */
  method ParseCmd(buf: array<char>) returns (ok: bool, cmd: Cmd, ghost line: seq<char>, ghost l: Line)
    requires exists k :: 0 <= k < buf.Length && buf[k] == 0 as char
    modifies buf
    ensures |line| < buf.Length && line == old(buf[..|line|]) && old(buf[|line|]) == 0 as char && 0 as char !in line
    ensures Lexed(line, 0, Seq(Tokens(line, 0)))
    ensures ok ==> Parsed(line, cmd, l) && ArgsFit(cmd) && forall t :: Names(cmd, t) ==> IsString(buf[..], line, t)
    ensures !ok ==> Meaningless(line) && buf[..] == old(buf[..])
  {
    var es := StrLen(buf);
    line := buf[..es];
    TokensAreRight(line, 0);
    ok, cmd, l := ParseAll(buf[..es]);
    if ok {
      LineNames(l, End, Tok('a', 0, 0));
      Terminate(buf, cmd, line, l);
    }
  }

  lemma {:induction false} BelowMore(c: Cmd, m: nat, n: nat)
    requires EndsBelow(c, m) && m <= n
    ensures EndsBelow(c, n)
    decreases c
  {
    match c
    case ExecCmd(_) =>
    case RedirCmd(d, _, _, _) => BelowMore(d, m, n);
    case PipeCmd(l, r) =>
      BelowMore(l, m, n);
      BelowMore(r, m, n);
    case ListCmd(l, r) =>
      BelowMore(l, m, n);
      BelowMore(r, m, n);
    case BackCmd(d) => BelowMore(d, m, n);
  }
}
