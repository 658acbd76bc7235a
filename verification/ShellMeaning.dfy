/** Which tree a command line means, said of its tokens: where each `|`, `;`, `&` and redirection of
    the line is in the tree, and in which order the words come. */
module ShellMeaning {
  import opened ShellTokens
  import opened ShellGrammar

  // ---------------------------------------------------------------- the meaning of a line

  function Seq(ts: Toks): seq<Tok> {
    match ts case End => [] case T(t, rest) => [t] + Seq(rest)
  }

  /** line[q..eq] is a word that goes on as far as it can, or `>>`, or one of the other symbols by
      itself. */
  predicate IsToken(line: seq<char>, t: Tok) {
    && t.q < t.eq <= |line|
    && if t.kind == 'a' then
         && (forall k :: t.q <= k < t.eq ==> !White(line[k]) && !Symbol(line[k]))
         && (t.eq < |line| ==> White(line[t.eq]) || Symbol(line[t.eq]))
       else if t.kind == '+' then t.eq == t.q + 2 && line[t.q] == '>' && line[t.q + 1] == '>'
       else t.eq == t.q + 1 && Symbol(t.kind) && line[t.q] == t.kind && (t.kind == '>' && t.eq < |line| ==> line[t.eq] != '>')
  }

  /** The tokens of the line from s on: they come in order, and nothing but white space lies between
      them. */
  ghost predicate Lexed(line: seq<char>, s: nat, ts: seq<Tok>) {
    && (forall j :: 0 <= j < |ts| ==> IsToken(line, ts[j]) && s <= ts[j].q)
    && (forall j, k :: 0 <= j < k < |ts| ==> ts[j].eq <= ts[k].q)
    && (forall p :: s <= p < |line| && !White(line[p]) ==> Inside(ts, p))
  }

  predicate Inside(ts: seq<Tok>, p: nat) {
    exists j :: 0 <= j < |ts| && ts[j].q <= p < ts[j].eq
  }

  lemma FirstIsToken(line: seq<char>, q: nat)
    requires q < |line| && !White(line[q])
    ensures IsToken(line, TokAt(line, q))
  {
  }

  lemma InsideMore(t: Tok, rest: seq<Tok>, p: nat)
    requires t.q <= p < t.eq || Inside(rest, p)
    ensures Inside([t] + rest, p)
  {
    var ts := [t] + rest;
    if t.q <= p < t.eq {
      assert ts[0] == t;
    } else {
      var j :| 0 <= j < |rest| && rest[j].q <= p < rest[j].eq;
      assert ts[j + 1] == rest[j];
    }
  }

  lemma LexedMore(line: seq<char>, s: nat, t: Tok, rest: seq<Tok>)
    requires s <= t.q && IsToken(line, t) && Lexed(line, t.eq, rest) && forall p :: s <= p < t.q ==> White(line[p])
    ensures Lexed(line, s, [t] + rest)
  {
    forall p | s <= p < |line| && !White(line[p]) ensures Inside([t] + rest, p) {
      InsideMore(t, rest, p);
    }
  }

  /** gettoken splits the line rightly. */
  lemma {:induction false} TokensAreRight(line: seq<char>, s: nat)
    requires s <= |line|
    ensures Lexed(line, s, Seq(Tokens(line, s)))
    decreases |line| - s
  {
    var q := Skip(line, s);
    if q < |line| {
      var t := TokAt(line, q);
      FirstIsToken(line, q);
      TokensAreRight(line, t.eq);
      LexedMore(line, s, t, Seq(Tokens(line, t.eq)));
    }
  }

  /** A redirection: the file, how to open it, and which descriptor it becomes. */
  datatype To = To(file: Tok, mode: nat, fd: nat)

  /** `<` opens for reading as descriptor 0, `>` and `>>` open or create for writing as 1. */
  function Redirection(op: Tok, file: Tok): To {
    if op.kind == '<' then To(file, 0, 0) else To(file, 0x201, 1)
  }

  /** Words, and redirections with their files. */
  predicate Formed(ts: seq<Tok>) {
    if ts == [] then true
    else if ts[0].kind == 'a' then Formed(ts[1..])
    else IsRedir(ts[0]) && |ts| >= 2 && ts[1].kind == 'a' && Formed(ts[2..])
  }

  /** The words that are not files of redirections, in order. */
  function Args(ts: seq<Tok>): seq<Tok> {
    if ts == [] then []
    else if IsRedir(ts[0]) && |ts| >= 2 then Args(ts[2..])
    else (if ts[0].kind == 'a' then [ts[0]] else []) + Args(ts[1..])
  }

  /** The redirections, in order. */
  function Redirs(ts: seq<Tok>): seq<To> {
    if ts == [] then []
    else if IsRedir(ts[0]) && |ts| >= 2 then [Redirection(ts[0], ts[1])] + Redirs(ts[2..])
    else Redirs(ts[1..])
  }

  /** c is d with the redirections around it, the first one innermost. */
  predicate Around(c: Cmd, d: Cmd, rs: seq<To>)
    decreases |rs|
  {
    if rs == [] then c == d
    else c.RedirCmd? && To(c.file, c.mode, c.fd) == rs[|rs| - 1] && Around(c.cmd, d, rs[..|rs| - 1])
  }

  /** A line is what comes before its first `;`, then the rest. */
  ghost predicate MeansLine(c: Cmd, ts: seq<Tok>)
    decreases |ts|, 3
  {
    || MeansBack(c, ts)
    || (c.ListCmd? && exists i :: 0 <= i < |ts| && ts[i].kind == ';' && MeansBack(c.left, ts[..i]) && MeansLine(c.right, ts[i + 1..]))
  }

  /** Each `&` puts what is before it into the background. */
  ghost predicate MeansBack(c: Cmd, ts: seq<Tok>)
    decreases |ts|, 2
  {
    || MeansPipe(c, ts)
    || (c.BackCmd? && ts != [] && ts[|ts| - 1].kind == '&' && MeansBack(c.cmd, ts[..|ts| - 1]))
  }

  /** The command before the first `|` feeds the rest. */
  ghost predicate MeansPipe(c: Cmd, ts: seq<Tok>)
    decreases |ts|, 1
  {
    || MeansExec(c, ts)
    || (c.PipeCmd? && exists i :: 0 <= i < |ts| && ts[i].kind == '|' && MeansExec(c.left, ts[..i]) && MeansPipe(c.right, ts[i + 1..]))
  }

  /** A simple command, or a line in parentheses, with its redirections. */
  ghost predicate MeansExec(c: Cmd, ts: seq<Tok>)
    decreases |ts|, 0
  {
    || (Formed(ts) && |Args(ts)| < MAXARGS && Around(c, ExecCmd(Args(ts)), Redirs(ts)))
    || exists d, k :: 0 < k < |ts| && ts[0].kind == '(' && ts[k].kind == ')' && MeansLine(d, ts[1..k])
         && Formed(ts[k + 1..]) && Args(ts[k + 1..]) == [] && Around(c, d, Redirs(ts[k + 1..]))
  }

  // ---------------------------------------------------------------- tokens of a derivation

  function ItemSeq(items: Items): seq<Tok> {
    match items
    case NoItem => []
    case Word(t, more) => [t] + ItemSeq(more)
    case Redir(op, file, more) => [op, file] + ItemSeq(more)
  }

  function AmpSeq(amps: Amps): seq<Tok> {
    match amps case NoAmp => [] case Amp(t, more) => [t] + AmpSeq(more)
  }

  function LineSeq(l: Line): seq<Tok> {
    PipeSeq(l.pipe) + AmpSeq(l.amps) + match l.tail case Stop => [] case Semi(semi, line) => [semi] + LineSeq(line)
  }

  function PipeSeq(p: Pipe): seq<Tok> {
    match p case Last(e) => ExecSeq(e) case Bar(e, bar, rest) => ExecSeq(e) + [bar] + PipeSeq(rest)
  }

  function ExecSeq(e: Exec): seq<Tok> {
    match e
    case Simple(items) => ItemSeq(items)
    case Block(open, line, close, redirs) => [open] + LineSeq(line) + [close] + ItemSeq(redirs)
  }

  lemma {:induction false} ItemsAreSeq(items: Items, ts: Toks)
    ensures Seq(ItemToks(items, ts)) == ItemSeq(items) + Seq(ts)
  {
    match items
    case NoItem => assert [] + Seq(ts) == Seq(ts);
    case Word(t, more) =>
      ItemsAreSeq(more, ts);
      assert [t] + (ItemSeq(more) + Seq(ts)) == [t] + ItemSeq(more) + Seq(ts);
    case Redir(op, file, more) =>
      ItemsAreSeq(more, ts);
      assert [op] + ([file] + (ItemSeq(more) + Seq(ts))) == [op, file] + ItemSeq(more) + Seq(ts);
  }

  lemma {:induction false} AmpsAreSeq(amps: Amps, ts: Toks)
    ensures Seq(AmpToks(amps, ts)) == AmpSeq(amps) + Seq(ts)
  {
    match amps
    case NoAmp => assert [] + Seq(ts) == Seq(ts);
    case Amp(t, more) =>
      AmpsAreSeq(more, ts);
      assert [t] + (AmpSeq(more) + Seq(ts)) == [t] + AmpSeq(more) + Seq(ts);
  }

  lemma Regroup<X>(a: seq<X>, b: seq<X>, c: seq<X>)
    ensures a + (b + c) == a + b + c
  {
  }

  lemma Assoc<X>(a: seq<X>, b: seq<X>, c: seq<X>, d: seq<X>)
    ensures a + (b + (c + d)) == a + b + c + d
  {
  }

  lemma {:induction false} LineIsSeq(l: Line, ts: Toks)
    ensures Seq(LineToks(l, ts)) == LineSeq(l) + Seq(ts)
    decreases l
  {
    match l.tail
    case Stop =>
      PipeIsSeq(l.pipe, AmpToks(l.amps, ts));
      AmpsAreSeq(l.amps, ts);
      Assoc(PipeSeq(l.pipe), AmpSeq(l.amps), [], Seq(ts));
      assert [] + Seq(ts) == Seq(ts);
    case Semi(semi, line) =>
      var tail := T(semi, LineToks(line, ts));
      PipeIsSeq(l.pipe, AmpToks(l.amps, tail));
      AmpsAreSeq(l.amps, tail);
      LineIsSeq(line, ts);
      assert Seq(tail) == [semi] + LineSeq(line) + Seq(ts);
      Assoc(PipeSeq(l.pipe), AmpSeq(l.amps), [semi] + LineSeq(line), Seq(ts));
  }

  lemma {:induction false} PipeIsSeq(p: Pipe, ts: Toks)
    ensures Seq(PipeToks(p, ts)) == PipeSeq(p) + Seq(ts)
    decreases p
  {
    match p
    case Last(e) => ExecIsSeq(e, ts);
    case Bar(e, bar, rest) =>
      ExecIsSeq(e, T(bar, PipeToks(rest, ts)));
      PipeIsSeq(rest, ts);
      assert ExecSeq(e) + ([bar] + (PipeSeq(rest) + Seq(ts))) == ExecSeq(e) + [bar] + PipeSeq(rest) + Seq(ts);
  }

  lemma {:induction false} ExecIsSeq(e: Exec, ts: Toks)
    ensures Seq(ExecToks(e, ts)) == ExecSeq(e) + Seq(ts)
    decreases e
  {
    match e
    case Simple(items) => ItemsAreSeq(items, ts);
    case Block(open, line, close, redirs) =>
      ItemsAreSeq(redirs, ts);
      LineIsSeq(line, T(close, ItemToks(redirs, ts)));
      assert [open] + (LineSeq(line) + ([close] + (ItemSeq(redirs) + Seq(ts)))) == [open] + LineSeq(line) + [close] + ItemSeq(redirs) + Seq(ts);
  }

  // ---------------------------------------------------------------- the tree has this meaning

  lemma {:induction false} ItemsMean(items: Items)
    requires ItemsOk(items)
    ensures Formed(ItemSeq(items)) && Args(ItemSeq(items)) == Words(items) && |Words(items)| == Count(items)
  {
    match items
    case NoItem =>
    case Word(t, more) =>
      ItemsMean(more);
      assert ItemSeq(items)[1..] == ItemSeq(more);
    case Redir(op, file, more) =>
      ItemsMean(more);
      assert ItemSeq(items)[2..] == ItemSeq(more);
  }

  lemma {:induction false} AroundInner(c: Cmd, d: Cmd, e: Cmd, r: To, rs: seq<To>)
    requires Around(c, d, rs) && d.RedirCmd? && To(d.file, d.mode, d.fd) == r && d.cmd == e
    ensures Around(c, e, [r] + rs)
    decreases |rs|
  {
    if rs == [] {
      assert ([r] + rs)[..0] == [];
    } else {
      AroundInner(c.cmd, d, e, r, rs[..|rs| - 1]);
      assert ([r] + rs)[..|rs|] == [r] + rs[..|rs| - 1];
    }
  }

  lemma {:induction false} WrapMeans(c: Cmd, items: Items)
    requires ItemsOk(items)
    ensures Around(Wrap(c, items), c, Redirs(ItemSeq(items)))
    decreases items
  {
    match items
    case NoItem =>
    case Word(t, more) =>
      WrapMeans(c, more);
      assert ItemSeq(items)[1..] == ItemSeq(more);
    case Redir(op, file, more) =>
      WrapMeans(RedirTo(c, op, file), more);
      assert ItemSeq(items)[2..] == ItemSeq(more);
      AroundInner(Wrap(c, items), RedirTo(c, op, file), c, Redirection(op, file), Redirs(ItemSeq(more)));
  }

  lemma {:induction false} BacksMean(c: Cmd, amps: Amps, ts: seq<Tok>)
    requires AmpsOk(amps) && MeansBack(c, ts)
    ensures MeansBack(Backs(c, amps), ts + AmpSeq(amps))
    decreases amps
  {
    match amps
    case NoAmp => assert ts + [] == ts;
    case Amp(t, more) =>
      assert (ts + [t])[..|ts|] == ts;
      BacksMean(BackCmd(c), more, ts + [t]);
      assert ts + [t] + AmpSeq(more) == ts + AmpSeq(amps);
  }

  /** The tree of a derivation is one that its tokens mean. */
  lemma {:induction false} LineMeans(l: Line)
    requires LineOk(l)
    ensures MeansLine(LineTree(l), LineSeq(l))
    decreases l
  {
    PipeMeans(l.pipe);
    BacksMean(PipeTree(l.pipe), l.amps, PipeSeq(l.pipe));
    var front := PipeSeq(l.pipe) + AmpSeq(l.amps);
    match l.tail
    case Stop => assert LineSeq(l) == front;
    case Semi(semi, line) =>
      LineMeans(line);
      var ts := LineSeq(l);
      assert ts[..|front|] == front && ts[|front|] == semi && ts[|front| + 1..] == LineSeq(line);
  }

  lemma {:induction false} PipeMeans(p: Pipe)
    requires PipeOk(p)
    ensures MeansPipe(PipeTree(p), PipeSeq(p))
    decreases p
  {
    match p
    case Last(e) => ExecMeans(e);
    case Bar(e, bar, rest) =>
      ExecMeans(e);
      PipeMeans(rest);
      var ts, i := PipeSeq(p), |ExecSeq(e)|;
      assert ts[..i] == ExecSeq(e) && ts[i] == bar && ts[i + 1..] == PipeSeq(rest);
  }

  lemma {:induction false} ExecMeans(e: Exec)
    requires ExecOk(e)
    ensures MeansExec(ExecTree(e), ExecSeq(e))
    decreases e
  {
    match e
    case Simple(items) =>
      ItemsMean(items);
      WrapMeans(ExecCmd(Words(items)), items);
    case Block(open, line, close, redirs) =>
      LineMeans(line);
      ItemsMean(redirs);
      WrapMeans(LineTree(line), redirs);
      var ts, k := ExecSeq(e), |LineSeq(line)| + 1;
      assert ts[0] == open && ts[1..k] == LineSeq(line) && ts[k] == close && ts[k + 1..] == ItemSeq(redirs);
      assert Words(redirs) == [];
  }

  lemma TreeMeans(l: Line)
    requires LineOk(l)
    ensures MeansLine(LineTree(l), Seq(LineToks(l, End)))
  {
    LineMeans(l);
    LineIsSeq(l, End);
    assert LineSeq(l) + [] == LineSeq(l);
  }

  // ---------------------------------------------------------------- reading the tree

  /** The arguments of the tree, from left to right. */
  function Reads(c: Cmd): seq<Tok> {
    match c
    case ExecCmd(argv) => argv
    case RedirCmd(d, _, _, _) => Reads(d)
    case PipeCmd(l, r) => Reads(l) + Reads(r)
    case ListCmd(l, r) => Reads(l) + Reads(r)
    case BackCmd(d) => Reads(d)
  }

  /** Every redirection has its file. */
  predicate Closed(ts: seq<Tok>) {
    if ts == [] then true else if IsRedir(ts[0]) then |ts| >= 2 && Closed(ts[2..]) else Closed(ts[1..])
  }

  /** How many tokens Args takes at a time. */
  function Stride(ts: seq<Tok>): nat
    requires ts != []
  {
    if IsRedir(ts[0]) then 2 else 1
  }

  lemma {:induction false} ArgsStep(ts: seq<Tok>, n: nat)
    requires ts != [] && Closed(ts) && n == Stride(ts)
    ensures n <= |ts| && Closed(ts[n..]) && Args(ts) == (if n == 1 && ts[0].kind == 'a' then [ts[0]] else []) + Args(ts[n..])
  {
    assert n == 2 ==> [] + Args(ts[n..]) == Args(ts[n..]);
  }

  lemma {:induction false} ArgsJoinStep(a: seq<Tok>, b: seq<Tok>, n: nat, rest: seq<Tok>)
    requires a != [] && n == Stride(a) <= |a| && rest == a[n..] + b
    ensures (a + b)[n..] == rest && (a + b)[0] == a[0]
    ensures Args(a + b) == (if n == 1 && a[0].kind == 'a' then [a[0]] else []) + Args(rest) && (Closed(rest) ==> Closed(a + b))
  {
    assert (a + b)[n..] == rest;
    assert n == 2 ==> [] + Args(rest) == Args(rest);
  }

  lemma {:induction false} ArgsJoin(a: seq<Tok>, b: seq<Tok>)
    requires Closed(a)
    ensures Args(a + b) == Args(a) + Args(b) && (Closed(b) ==> Closed(a + b))
    decreases |a|
  {
    if a == [] {
      assert a + b == b && [] + Args(b) == Args(b);
    } else {
      var n := Stride(a);
      ArgsStep(a, n);
      ArgsJoin(a[n..], b);
      ArgsJoinStep(a, b, n, a[n..] + b);
      Regroup(if n == 1 && a[0].kind == 'a' then [a[0]] else [], Args(a[n..]), Args(b));
    }
  }

  lemma ArgsSkip(ts: seq<Tok>)
    requires ts != [] && !IsRedir(ts[0]) && ts[0].kind != 'a'
    ensures Args(ts) == Args(ts[1..]) && Closed(ts) == Closed(ts[1..])
  {
    assert [] + Args(ts[1..]) == Args(ts[1..]);
  }

  lemma ArgsSplit(ts: seq<Tok>, i: nat)
    requires i < |ts| && Closed(ts[..i]) && Closed(ts[i + 1..]) && !IsRedir(ts[i]) && ts[i].kind != 'a'
    ensures Args(ts) == Args(ts[..i]) + Args(ts[i + 1..]) && Closed(ts)
  {
    var front, rest := ts[..i], ts[i..];
    assert rest[1..] == ts[i + 1..] && ts == front + rest;
    ArgsSkip(rest);
    ArgsJoin(front, rest);
  }

  lemma {:induction false} FormedIsClosed(ts: seq<Tok>)
    requires Formed(ts)
    ensures Closed(ts)
    decreases |ts|
  {
    if ts != [] {
      FormedIsClosed(if ts[0].kind == 'a' then ts[1..] else ts[2..]);
    }
  }

  lemma {:induction false} AroundReads(c: Cmd, d: Cmd, rs: seq<To>)
    requires Around(c, d, rs)
    ensures Reads(c) == Reads(d)
    decreases |rs|
  {
    if rs != [] {
      AroundReads(c.cmd, d, rs[..|rs| - 1]);
    }
  }

  /** The words read off the tree are those of the line, in order, but for the files. */
  lemma {:induction false} LineReads(c: Cmd, ts: seq<Tok>)
    requires MeansLine(c, ts)
    ensures Reads(c) == Args(ts) && Closed(ts)
    decreases |ts|, 3
  {
    if MeansBack(c, ts) {
      BackReads(c, ts);
    } else {
      var i :| 0 <= i < |ts| && ts[i].kind == ';' && MeansBack(c.left, ts[..i]) && MeansLine(c.right, ts[i + 1..]);
      BackReads(c.left, ts[..i]);
      LineReads(c.right, ts[i + 1..]);
      ArgsSplit(ts, i);
    }
  }

  lemma {:induction false} BackReads(c: Cmd, ts: seq<Tok>)
    requires MeansBack(c, ts)
    ensures Reads(c) == Args(ts) && Closed(ts)
    decreases |ts|, 2
  {
    if MeansPipe(c, ts) {
      PipeReads(c, ts);
    } else {
      BackReads(c.cmd, ts[..|ts| - 1]);
      assert ts[|ts|..] == [];
      ArgsSplit(ts, |ts| - 1);
    }
  }

  lemma {:induction false} PipeReads(c: Cmd, ts: seq<Tok>)
    requires MeansPipe(c, ts)
    ensures Reads(c) == Args(ts) && Closed(ts)
    decreases |ts|, 1
  {
    if MeansExec(c, ts) {
      ExecReads(c, ts);
    } else {
      var i :| 0 <= i < |ts| && ts[i].kind == '|' && MeansExec(c.left, ts[..i]) && MeansPipe(c.right, ts[i + 1..]);
      ExecReads(c.left, ts[..i]);
      PipeReads(c.right, ts[i + 1..]);
      ArgsSplit(ts, i);
    }
  }

  lemma {:induction false} ExecReads(c: Cmd, ts: seq<Tok>)
    requires MeansExec(c, ts)
    ensures Reads(c) == Args(ts) && Closed(ts)
    decreases |ts|, 0
  {
    if Formed(ts) && |Args(ts)| < MAXARGS && Around(c, ExecCmd(Args(ts)), Redirs(ts)) {
      FormedIsClosed(ts);
      AroundReads(c, ExecCmd(Args(ts)), Redirs(ts));
    } else {
      var d, k :| 0 < k < |ts| && ts[0].kind == '(' && ts[k].kind == ')' && MeansLine(d, ts[1..k])
        && Formed(ts[k + 1..]) && Args(ts[k + 1..]) == [] && Around(c, d, Redirs(ts[k + 1..]));
      LineReads(d, ts[1..k]);
      FormedIsClosed(ts[k + 1..]);
      AroundReads(c, d, Redirs(ts[k + 1..]));
      BlockArgs(ts, k);
    }
  }

  lemma BlockArgs(ts: seq<Tok>, k: nat)
    requires 0 < k < |ts| && ts[0].kind == '(' && ts[k].kind == ')' && Closed(ts[1..k]) && Closed(ts[k + 1..]) && Args(ts[k + 1..]) == []
    ensures Args(ts) == Args(ts[1..k]) && Closed(ts)
  {
    var inner := ts[1..];
    ArgsSkip(ts);
    assert inner[..k - 1] == ts[1..k] && inner[k..] == ts[k + 1..];
    ArgsSplit(inner, k - 1);
    assert Args(ts[1..k]) + [] == Args(ts[1..k]);
  }

  // ---------------------------------------------------------------- counting

  function Kinds(ts: seq<Tok>, kind: char): nat {
    if ts == [] then 0 else (if ts[0].kind == kind then 1 else 0) + Kinds(ts[1..], kind)
  }

  /** How many PipeCmds, ListCmds and BackCmds the tree has. */
  function Nodes(c: Cmd, kind: char): nat {
    match c
    case ExecCmd(_) => 0
    case RedirCmd(d, _, _, _) => Nodes(d, kind)
    case PipeCmd(l, r) => (if kind == '|' then 1 else 0) + Nodes(l, kind) + Nodes(r, kind)
    case ListCmd(l, r) => (if kind == ';' then 1 else 0) + Nodes(l, kind) + Nodes(r, kind)
    case BackCmd(d) => (if kind == '&' then 1 else 0) + Nodes(d, kind)
  }

  lemma {:induction false} KindsJoin(a: seq<Tok>, b: seq<Tok>, kind: char)
    ensures Kinds(a + b, kind) == Kinds(a, kind) + Kinds(b, kind)
    decreases |a|
  {
    if a == [] {
      assert a + b == b;
    } else {
      KindsJoin(a[1..], b, kind);
      assert (a + b)[1..] == a[1..] + b;
    }
  }

  lemma KindsSplit(ts: seq<Tok>, i: nat, kind: char)
    requires i < |ts|
    ensures Kinds(ts, kind) == Kinds(ts[..i], kind) + (if ts[i].kind == kind then 1 else 0) + Kinds(ts[i + 1..], kind)
  {
    var rest := ts[i..];
    assert rest[1..] == ts[i + 1..] && ts == ts[..i] + rest;
    KindsJoin(ts[..i], rest, kind);
  }

  predicate Operator(kind: char) {
    kind == '|' || kind == ';' || kind == '&'
  }

  lemma {:induction false} FormedHasNone(ts: seq<Tok>, kind: char)
    requires Formed(ts) && Operator(kind)
    ensures Kinds(ts, kind) == 0
    decreases |ts|
  {
    if ts != [] {
      if ts[0].kind == 'a' {
        FormedHasNone(ts[1..], kind);
      } else {
        FormedHasNone(ts[2..], kind);
        assert ts[1..][1..] == ts[2..];
      }
    }
  }

  lemma {:induction false} AroundNodes(c: Cmd, d: Cmd, rs: seq<To>, kind: char)
    requires Around(c, d, rs)
    ensures Nodes(c, kind) == Nodes(d, kind)
    decreases |rs|
  {
    if rs != [] {
      AroundNodes(c.cmd, d, rs[..|rs| - 1], kind);
    }
  }

  /** Each `|` of the line is one PipeCmd, each `;` one ListCmd and each `&` one BackCmd. */
  lemma {:induction false} LineNodes(c: Cmd, ts: seq<Tok>, kind: char)
    requires MeansLine(c, ts) && Operator(kind)
    ensures Nodes(c, kind) == Kinds(ts, kind)
    decreases |ts|, 3
  {
    if MeansBack(c, ts) {
      BackNodes(c, ts, kind);
    } else {
      var i :| 0 <= i < |ts| && ts[i].kind == ';' && MeansBack(c.left, ts[..i]) && MeansLine(c.right, ts[i + 1..]);
      BackNodes(c.left, ts[..i], kind);
      LineNodes(c.right, ts[i + 1..], kind);
      KindsSplit(ts, i, kind);
    }
  }

  lemma {:induction false} BackNodes(c: Cmd, ts: seq<Tok>, kind: char)
    requires MeansBack(c, ts) && Operator(kind)
    ensures Nodes(c, kind) == Kinds(ts, kind)
    decreases |ts|, 2
  {
    if MeansPipe(c, ts) {
      PipeNodes(c, ts, kind);
    } else {
      BackNodes(c.cmd, ts[..|ts| - 1], kind);
      KindsSplit(ts, |ts| - 1, kind);
    }
  }

  lemma {:induction false} PipeNodes(c: Cmd, ts: seq<Tok>, kind: char)
    requires MeansPipe(c, ts) && Operator(kind)
    ensures Nodes(c, kind) == Kinds(ts, kind)
    decreases |ts|, 1
  {
    if MeansExec(c, ts) {
      ExecNodes(c, ts, kind);
    } else {
      var i :| 0 <= i < |ts| && ts[i].kind == '|' && MeansExec(c.left, ts[..i]) && MeansPipe(c.right, ts[i + 1..]);
      ExecNodes(c.left, ts[..i], kind);
      PipeNodes(c.right, ts[i + 1..], kind);
      KindsSplit(ts, i, kind);
    }
  }

  lemma {:induction false} ExecNodes(c: Cmd, ts: seq<Tok>, kind: char)
    requires MeansExec(c, ts) && Operator(kind)
    ensures Nodes(c, kind) == Kinds(ts, kind)
    decreases |ts|, 0
  {
    if Formed(ts) && |Args(ts)| < MAXARGS && Around(c, ExecCmd(Args(ts)), Redirs(ts)) {
      FormedHasNone(ts, kind);
      AroundNodes(c, ExecCmd(Args(ts)), Redirs(ts), kind);
    } else {
      var d, k :| 0 < k < |ts| && ts[0].kind == '(' && ts[k].kind == ')' && MeansLine(d, ts[1..k])
        && Formed(ts[k + 1..]) && Args(ts[k + 1..]) == [] && Around(c, d, Redirs(ts[k + 1..]));
      LineNodes(d, ts[1..k], kind);
      FormedHasNone(ts[k + 1..], kind);
      AroundNodes(c, d, Redirs(ts[k + 1..]), kind);
      BlockKinds(ts, k, kind);
    }
  }

  lemma BlockKinds(ts: seq<Tok>, k: nat, kind: char)
    requires 0 < k < |ts| && ts[0].kind != kind && ts[k].kind != kind
    ensures Kinds(ts, kind) == Kinds(ts[1..k], kind) + Kinds(ts[k + 1..], kind)
  {
    var inner := ts[1..];
    assert inner[..k - 1] == ts[1..k] && inner[k..] == ts[k + 1..];
    KindsSplit(inner, k - 1, kind);
  }

  // ---------------------------------------------------------------- only one meaning

  lemma {:induction false} FormedItems(ts: seq<Tok>) returns (items: Items)
    requires Formed(ts)
    ensures ItemsOk(items) && ItemSeq(items) == ts
    decreases |ts|
  {
    if ts == [] {
      items := NoItem;
    } else if ts[0].kind == 'a' {
      var more := FormedItems(ts[1..]);
      items := Word(ts[0], more);
    } else {
      var more := FormedItems(ts[2..]);
      items := Redir(ts[0], ts[1], more);
      assert [ts[0], ts[1]] + ts[2..] == ts;
    }
  }

  lemma {:induction false} AroundOnce(c: Cmd, c': Cmd, d: Cmd, rs: seq<To>)
    requires Around(c, d, rs) && Around(c', d, rs)
    ensures c == c'
    decreases |rs|
  {
    if rs != [] {
      AroundOnce(c.cmd, c'.cmd, d, rs[..|rs| - 1]);
    }
  }

  function MoreAmps(amps: Amps, t: Tok): Amps {
    match amps case NoAmp => Amp(t, NoAmp) case Amp(u, more) => Amp(u, MoreAmps(more, t))
  }

  lemma {:induction false} MoreAmpsIs(amps: Amps, t: Tok, c: Cmd)
    requires AmpsOk(amps) && t.kind == '&'
    ensures AmpsOk(MoreAmps(amps, t)) && AmpSeq(MoreAmps(amps, t)) == AmpSeq(amps) + [t] && Backs(c, MoreAmps(amps, t)) == BackCmd(Backs(c, amps))
    decreases amps
  {
    match amps
    case NoAmp =>
    case Amp(u, more) => MoreAmpsIs(more, t, BackCmd(c));
  }

  /** What tokens mean is the tree of a derivation of them. */
  lemma {:induction false} LineDerives(c: Cmd, ts: seq<Tok>) returns (l: Line)
    requires MeansLine(c, ts)
    ensures LineOk(l) && LineSeq(l) == ts && LineTree(l) == c
    decreases |ts|, 3
  {
    if MeansBack(c, ts) {
      var p, amps := BackDerives(c, ts);
      l := Line(p, amps, Stop);
      assert ts + [] == ts;
    } else {
      var i :| 0 <= i < |ts| && ts[i].kind == ';' && MeansBack(c.left, ts[..i]) && MeansLine(c.right, ts[i + 1..]);
      var p, amps := BackDerives(c.left, ts[..i]);
      var right := LineDerives(c.right, ts[i + 1..]);
      l := Line(p, amps, Semi(ts[i], right));
      Rejoin(ts, i);
    }
  }

  lemma {:induction false} BackDerives(c: Cmd, ts: seq<Tok>) returns (p: Pipe, amps: Amps)
    requires MeansBack(c, ts)
    ensures PipeOk(p) && AmpsOk(amps) && PipeSeq(p) + AmpSeq(amps) == ts && Backs(PipeTree(p), amps) == c
    decreases |ts|, 2
  {
    if MeansPipe(c, ts) {
      p := PipeDerives(c, ts);
      amps := NoAmp;
      assert ts + [] == ts;
    } else {
      var t, front := ts[|ts| - 1], ts[..|ts| - 1];
      p, amps := BackDerives(c.cmd, front);
      MoreAmpsIs(amps, t, PipeTree(p));
      assert PipeSeq(p) + (AmpSeq(amps) + [t]) == front + [t] == ts;
      amps := MoreAmps(amps, t);
    }
  }

  lemma Rejoin(ts: seq<Tok>, i: nat)
    requires i < |ts|
    ensures ts[..i] + [ts[i]] + ts[i + 1..] == ts && ts[..i] + ([ts[i]] + ts[i + 1..]) == ts
  {
  }

  lemma {:induction false} PipeDerives(c: Cmd, ts: seq<Tok>) returns (p: Pipe)
    requires MeansPipe(c, ts)
    ensures PipeOk(p) && PipeSeq(p) == ts && PipeTree(p) == c
    decreases |ts|, 1
  {
    if MeansExec(c, ts) {
      var e := ExecDerives(c, ts);
      p := Last(e);
    } else {
      var i :| 0 <= i < |ts| && ts[i].kind == '|' && MeansExec(c.left, ts[..i]) && MeansPipe(c.right, ts[i + 1..]);
      var e := ExecDerives(c.left, ts[..i]);
      var rest := PipeDerives(c.right, ts[i + 1..]);
      p := Bar(e, ts[i], rest);
      Rejoin(ts, i);
    }
  }

  lemma {:induction false} ExecDerives(c: Cmd, ts: seq<Tok>) returns (e: Exec)
    requires MeansExec(c, ts)
    ensures ExecOk(e) && ExecSeq(e) == ts && ExecTree(e) == c
    decreases |ts|, 0
  {
    if Formed(ts) && |Args(ts)| < MAXARGS && Around(c, ExecCmd(Args(ts)), Redirs(ts)) {
      var items := FormedItems(ts);
      ItemsMean(items);
      WrapMeans(ExecCmd(Words(items)), items);
      e := Simple(items);
      AroundOnce(c, ExecTree(e), ExecCmd(Args(ts)), Redirs(ts));
    } else {
      var d, k :| 0 < k < |ts| && ts[0].kind == '(' && ts[k].kind == ')' && MeansLine(d, ts[1..k])
        && Formed(ts[k + 1..]) && Args(ts[k + 1..]) == [] && Around(c, d, Redirs(ts[k + 1..]));
      var line := LineDerives(d, ts[1..k]);
      e := BlockDerives(c, ts, k, line);
    }
  }

  lemma {:induction false} BlockDerives(c: Cmd, ts: seq<Tok>, k: nat, line: Line) returns (e: Exec)
    requires 0 < k < |ts| && ts[0].kind == '(' && ts[k].kind == ')' && LineOk(line) && LineSeq(line) == ts[1..k]
    requires Formed(ts[k + 1..]) && Args(ts[k + 1..]) == [] && Around(c, LineTree(line), Redirs(ts[k + 1..]))
    ensures ExecOk(e) && ExecSeq(e) == ts && ExecTree(e) == c
  {
    var redirs := FormedItems(ts[k + 1..]);
    ItemsMean(redirs);
    WrapMeans(LineTree(line), redirs);
    e := Block(ts[0], line, ts[k], redirs);
    AroundOnce(c, ExecTree(e), LineTree(line), Redirs(ts[k + 1..]));
    RejoinBlock(ts, k);
  }

  lemma RejoinBlock(ts: seq<Tok>, k: nat)
    requires 0 < k < |ts|
    ensures [ts[0]] + ts[1..k] + [ts[k]] + ts[k + 1..] == ts
  {
  }

  lemma {:induction false} SeqOnce(ts: Toks, us: Toks)
    requires Seq(ts) == Seq(us)
    ensures ts == us
    decreases ts
  {
    match ts
    case End => assert us == End;
    case T(t, rest) =>
      assert us.T? && Seq(ts)[0] == t && Seq(us)[0] == us.first;
      assert Seq(ts)[1..] == Seq(rest) && Seq(us)[1..] == Seq(us.rest);
      SeqOnce(rest, us.rest);
  }

  /** Tokens that mean a tree are those of a derivation, and so mean no other tree. */
  lemma MeansOnce(c: Cmd, ts: Toks) returns (l: Line)
    requires MeansLine(c, Seq(ts))
    ensures LineOk(l) && LineToks(l, End) == ts && PLine(ts) == Ok(l, End) && c == LineTree(l)
  {
    l := LineDerives(c, Seq(ts));
    LineIsSeq(l, End);
    assert LineSeq(l) + [] == LineSeq(l);
    SeqOnce(LineToks(l, End), ts);
    LineComplete(l, End);
  }
}
