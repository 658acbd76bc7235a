/** The grammar that the parser of sh.c accepts, the trees it builds, and its parsing functions
    over tokens. */
module ShellGrammar {
  import opened ShellTokens

  const MAXARGS := 10
  const O_RDONLY := 0
  /** O_WRONLY | O_CREATE. */
  const O_CREATED := 0x201

  // ---------------------------------------------------------------- derivations

  datatype Items = NoItem | Word(t: Tok, more: Items) | Redir(op: Tok, file: Tok, more: Items)
  datatype Amps = NoAmp | Amp(t: Tok, more: Amps)
  datatype Line = Line(pipe: Pipe, amps: Amps, tail: Tail)
  datatype Tail = Stop | Semi(semi: Tok, line: Line)
  datatype Pipe = Last(exec: Exec) | Bar(first: Exec, bar: Tok, pipe: Pipe)
  datatype Exec = Simple(items: Items) | Block(open: Tok, line: Line, close: Tok, redirs: Items)

  /** The tokens of a derivation, with `ts` behind them. */
  function ItemToks(items: Items, ts: Toks): Toks {
    match items
    case NoItem => ts
    case Word(t, more) => T(t, ItemToks(more, ts))
    case Redir(op, file, more) => T(op, T(file, ItemToks(more, ts)))
  }

  function AmpToks(amps: Amps, ts: Toks): Toks {
    match amps case NoAmp => ts case Amp(t, more) => T(t, AmpToks(more, ts))
  }

  function LineToks(l: Line, ts: Toks): Toks {
    PipeToks(l.pipe, AmpToks(l.amps, match l.tail case Stop => ts case Semi(semi, line) => T(semi, LineToks(line, ts))))
  }

  function PipeToks(p: Pipe, ts: Toks): Toks {
    match p
    case Last(e) => ExecToks(e, ts)
    case Bar(e, bar, rest) => ExecToks(e, T(bar, PipeToks(rest, ts)))
  }

  function ExecToks(e: Exec, ts: Toks): Toks {
    match e
    case Simple(items) => ItemToks(items, ts)
    case Block(open, line, close, redirs) => T(open, LineToks(line, T(close, ItemToks(redirs, ts))))
  }

  predicate IsRedir(t: Tok) {
    t.kind == '<' || t.kind == '>' || t.kind == '+'
  }

  function Count(items: Items): nat {
    match items case NoItem => 0 case Word(_, more) => 1 + Count(more) case Redir(_, _, more) => Count(more)
  }

  predicate ItemsOk(items: Items) {
    match items
    case NoItem => true
    case Word(t, more) => t.kind == 'a' && ItemsOk(more)
    case Redir(op, file, more) => IsRedir(op) && file.kind == 'a' && ItemsOk(more)
  }

  predicate AmpsOk(amps: Amps) {
    match amps case NoAmp => true case Amp(t, more) => t.kind == '&' && AmpsOk(more)
  }

  /** The derivations of the grammar. */
  predicate LineOk(l: Line) {
    PipeOk(l.pipe) && AmpsOk(l.amps) && match l.tail case Stop => true case Semi(semi, line) => semi.kind == ';' && LineOk(line)
  }

  predicate PipeOk(p: Pipe) {
    match p
    case Last(e) => ExecOk(e)
    case Bar(e, bar, rest) => ExecOk(e) && bar.kind == '|' && PipeOk(rest)
  }

  predicate ExecOk(e: Exec) {
    match e
    case Simple(items) => ItemsOk(items) && Count(items) < MAXARGS
    case Block(open, line, close, redirs) => open.kind == '(' && LineOk(line) && close.kind == ')' && ItemsOk(redirs) && Count(redirs) == 0
  }

  // ---------------------------------------------------------------- trees

  /** struct cmd and its variants. */
  datatype Cmd = ExecCmd(argv: seq<Tok>) | RedirCmd(cmd: Cmd, file: Tok, mode: nat, fd: nat)
    | PipeCmd(left: Cmd, right: Cmd) | ListCmd(left: Cmd, right: Cmd) | BackCmd(cmd: Cmd)

  function RedirTo(c: Cmd, op: Tok, file: Tok): Cmd {
    if op.kind == '<' then RedirCmd(c, file, O_RDONLY, 0) else RedirCmd(c, file, O_CREATED, 1)
  }

  function Words(items: Items): seq<Tok> {
    match items case NoItem => [] case Word(t, more) => [t] + Words(more) case Redir(_, _, more) => Words(more)
  }

  /** The redirections around a command, the first one innermost. */
  function Wrap(c: Cmd, items: Items): Cmd
    decreases items
  {
    match items case NoItem => c case Word(_, more) => Wrap(c, more) case Redir(op, file, more) => Wrap(RedirTo(c, op, file), more)
  }

  function Backs(c: Cmd, amps: Amps): Cmd
    decreases amps
  {
    match amps case NoAmp => c case Amp(_, more) => Backs(BackCmd(c), more)
  }

  function LineTree(l: Line): Cmd {
    var c := Backs(PipeTree(l.pipe), l.amps);
    match l.tail case Stop => c case Semi(_, line) => ListCmd(c, LineTree(line))
  }

  function PipeTree(p: Pipe): Cmd {
    match p
    case Last(e) => ExecTree(e)
    case Bar(e, _, rest) => PipeCmd(ExecTree(e), PipeTree(rest))
  }

  function ExecTree(e: Exec): Cmd {
    match e
    case Simple(items) => Wrap(ExecCmd(Words(items)), items)
    case Block(_, line, _, redirs) => Wrap(LineTree(line), redirs)
  }

  // ---------------------------------------------------------------- parsing

  datatype Res<T> = Ok(v: T, rest: Toks) | Err

  function Size(ts: Toks): nat {
    match ts case End => 0 case T(_, rest) => 1 + Size(rest)
  }

  predicate Starts(ts: Toks, kind: char) {
    ts.T? && ts.first.kind == kind
  }

  predicate StartsRedir(ts: Toks) {
    ts.T? && IsRedir(ts.first)
  }

  /** The end of a command: one of |)&; or the end of the line. */
  predicate StopsExec(ts: Toks) {
    ts == End || ts.first.kind == '|' || ts.first.kind == ')' || ts.first.kind == '&' || ts.first.kind == ';'
  }

  /** The words and redirections of a command; n words came before. */
  function PItems(ts: Toks, n: nat): (r: Res<Items>)
    ensures r.Ok? ==> Size(r.rest) <= Size(ts)
  {
    if StopsExec(ts) then Ok(NoItem, ts)
    else if IsRedir(ts.first) then
      (if !Starts(ts.rest, 'a') then Err
       else match PItems(ts.rest.rest, n) case Err => Err case Ok(items, rest) => Ok(Redir(ts.first, ts.rest.first, items), rest))
    else if ts.first.kind != 'a' || n + 1 >= MAXARGS then Err
    else match PItems(ts.rest, n + 1) case Err => Err case Ok(items, rest) => Ok(Word(ts.first, items), rest)
  }

  /** Redirections only. */
  function PRedirs(ts: Toks): (r: Res<Items>)
    ensures r.Ok? ==> Size(r.rest) <= Size(ts)
  {
    if !StartsRedir(ts) then Ok(NoItem, ts)
    else if !Starts(ts.rest, 'a') then Err
    else match PRedirs(ts.rest.rest) case Err => Err case Ok(items, rest) => Ok(Redir(ts.first, ts.rest.first, items), rest)
  }

  function PAmps(ts: Toks): (r: Res<Amps>)
    ensures r.Ok? && Size(r.rest) <= Size(ts)
  {
    if !Starts(ts, '&') then Ok(NoAmp, ts) else Ok(Amp(ts.first, PAmps(ts.rest).v), PAmps(ts.rest).rest)
  }

  function PLine(ts: Toks): (r: Res<Line>)
    ensures r.Ok? ==> Size(r.rest) <= Size(ts)
    decreases Size(ts), 3
  {
    match PPipe(ts)
    case Err => Err
    case Ok(p, ts1) =>
      var a := PAmps(ts1);
      if !Starts(a.rest, ';') then Ok(Line(p, a.v, Stop), a.rest)
      else match PLine(a.rest.rest) case Err => Err case Ok(l, rest) => Ok(Line(p, a.v, Semi(a.rest.first, l)), rest)
  }

  function PPipe(ts: Toks): (r: Res<Pipe>)
    ensures r.Ok? ==> Size(r.rest) <= Size(ts)
    decreases Size(ts), 2
  {
    match PExec(ts)
    case Err => Err
    case Ok(e, ts1) =>
      if !Starts(ts1, '|') then Ok(Last(e), ts1)
      else match PPipe(ts1.rest) case Err => Err case Ok(p, rest) => Ok(Bar(e, ts1.first, p), rest)
  }

  function PExec(ts: Toks): (r: Res<Exec>)
    ensures r.Ok? ==> Size(r.rest) <= Size(ts)
    decreases Size(ts), 1
  {
    if Starts(ts, '(') then PBlock(ts)
    else match PItems(ts, 0) case Err => Err case Ok(items, rest) => Ok(Simple(items), rest)
  }

  function PBlock(ts: Toks): (r: Res<Exec>)
    requires ts.T?
    ensures r.Ok? ==> Size(r.rest) <= Size(ts)
    decreases Size(ts), 0
  {
    match PLine(ts.rest)
    case Err => Err
    case Ok(l, ts1) =>
      if !Starts(ts1, ')') then Err
      else match PRedirs(ts1.rest) case Err => Err case Ok(items, rest) => Ok(Block(ts.first, l, ts1.first, items), rest)
  }

  // ---------------------------------------------------------------- soundness

  lemma {:induction false} ItemsSound(ts: Toks, n: nat)
    requires PItems(ts, n).Ok? && n < MAXARGS
    ensures var r := PItems(ts, n); ts == ItemToks(r.v, r.rest) && ItemsOk(r.v) && n + Count(r.v) < MAXARGS
  {
    if !StopsExec(ts) {
      if IsRedir(ts.first) {
        ItemsSound(ts.rest.rest, n);
      } else {
        ItemsSound(ts.rest, n + 1);
      }
    }
  }

  lemma {:induction false} RedirsSound(ts: Toks)
    requires PRedirs(ts).Ok?
    ensures var r := PRedirs(ts); ts == ItemToks(r.v, r.rest) && ItemsOk(r.v) && Count(r.v) == 0
  {
    if StartsRedir(ts) {
      RedirsSound(ts.rest.rest);
    }
  }

  lemma {:induction false} AmpsSound(ts: Toks)
    ensures var r := PAmps(ts); ts == AmpToks(r.v, r.rest) && AmpsOk(r.v)
  {
    if Starts(ts, '&') {
      AmpsSound(ts.rest);
    }
  }

  /** What PLine returns is a derivation of the tokens it consumed. */
  lemma {:induction false} LineSound(ts: Toks)
    requires PLine(ts).Ok?
    ensures var r := PLine(ts); LineOk(r.v) && ts == LineToks(r.v, r.rest)
    decreases Size(ts), 3
  {
    PipeSound(ts);
    AmpsSound(PPipe(ts).rest);
    var a := PAmps(PPipe(ts).rest);
    if Starts(a.rest, ';') {
      LineSound(a.rest.rest);
    }
  }

  lemma {:induction false} PipeSound(ts: Toks)
    requires PPipe(ts).Ok?
    ensures var r := PPipe(ts); PipeOk(r.v) && ts == PipeToks(r.v, r.rest)
    decreases Size(ts), 2
  {
    ExecSound(ts);
    var e := PExec(ts);
    if Starts(e.rest, '|') {
      PipeSound(e.rest.rest);
    }
  }

  lemma {:induction false} ExecSound(ts: Toks)
    requires PExec(ts).Ok?
    ensures var r := PExec(ts); ExecOk(r.v) && ts == ExecToks(r.v, r.rest)
    decreases Size(ts), 1
  {
    if Starts(ts, '(') {
      LineSound(ts.rest);
      RedirsSound(PLine(ts.rest).rest.rest);
    } else {
      ItemsSound(ts, 0);
    }
  }

  // ---------------------------------------------------------------- completeness

  /** What may stand behind a line: nothing or a closing parenthesis. */
  predicate StopsLine(ts: Toks) {
    ts == End || ts.first.kind == ')'
  }

  predicate StopsPipe(ts: Toks) {
    StopsLine(ts) || ts.first.kind == '&' || ts.first.kind == ';'
  }

  lemma {:induction false} ItemsComplete(items: Items, ts: Toks, n: nat)
    requires ItemsOk(items) && n + Count(items) < MAXARGS && StopsExec(ts)
    ensures PItems(ItemToks(items, ts), n) == Ok(items, ts)
  {
    match items
    case NoItem =>
    case Word(_, more) => ItemsComplete(more, ts, n + 1);
    case Redir(_, _, more) => ItemsComplete(more, ts, n);
  }

  lemma {:induction false} RedirsComplete(items: Items, ts: Toks)
    requires ItemsOk(items) && Count(items) == 0 && StopsExec(ts)
    ensures PRedirs(ItemToks(items, ts)) == Ok(items, ts)
  {
    if items.Redir? {
      RedirsComplete(items.more, ts);
    }
  }

  lemma {:induction false} AmpsComplete(amps: Amps, ts: Toks)
    requires AmpsOk(amps) && !Starts(ts, '&')
    ensures PAmps(AmpToks(amps, ts)) == Ok(amps, ts)
  {
    if amps.Amp? {
      AmpsComplete(amps.more, ts);
    }
  }

  /** The parser finds every derivation, so no token sequence has two. */
  lemma {:induction false} LineComplete(l: Line, ts: Toks)
    requires LineOk(l) && StopsLine(ts)
    ensures PLine(LineToks(l, ts)) == Ok(l, ts)
    decreases l
  {
    var tail := match l.tail case Stop => ts case Semi(semi, line) => T(semi, LineToks(line, ts));
    AmpsComplete(l.amps, tail);
    PipeComplete(l.pipe, AmpToks(l.amps, tail));
    if l.tail.Semi? {
      LineComplete(l.tail.line, ts);
    }
  }

  lemma {:induction false} PipeComplete(p: Pipe, ts: Toks)
    requires PipeOk(p) && StopsPipe(ts)
    ensures PPipe(PipeToks(p, ts)) == Ok(p, ts)
    decreases p
  {
    match p
    case Last(e) => ExecComplete(e, ts);
    case Bar(e, bar, rest) =>
      ExecComplete(e, T(bar, PipeToks(rest, ts)));
      PipeComplete(rest, ts);
  }

  lemma {:induction false} ExecComplete(e: Exec, ts: Toks)
    requires ExecOk(e) && StopsExec(ts)
    ensures PExec(ExecToks(e, ts)) == Ok(e, ts)
    decreases e
  {
    match e
    case Simple(items) => ItemsComplete(items, ts, 0);
    case Block(open, line, close, redirs) =>
      RedirsComplete(redirs, ts);
      LineComplete(line, T(close, ItemToks(redirs, ts)));
  }
}
