/** What each call of pipewrite and piperead moves, and returns. The book is kept by an observer who
    sees only the steps, and what has gone into the pipe and come out of it. */
module PipeCalls {
  import opened Basics
  import opened Pipe
  import opened PipeRuns

  datatype Want = ToWrite(src: seq<byte>) | ToRead(n: nat)

  /** A call of process p: what it was asked to do, the bytes it has put in or taken out, where in
      the stream it took them, and how it has returned: its value, what it stored for the caller,
      whether it was interrupted (p had been killed, or the other end of a write was closed), how
      many bytes it left in the pipe, and whether somebody could still write. */
  datatype Call = Call(p: nat, want: Want, moved: seq<byte>, at: nat, over: Option<End>)
  datatype End = End(ret: int, got: seq<byte>, interrupted: bool, left: int, open: bool)

  /** The calls so far; the last call of each process; and for each byte of `accepted` and of
      `delivered`, which call moved it. */
  datatype Book = Book(calls: seq<Call>, last: seq<nat>, ins: seq<nat>, outs: seq<nat>)

  function NewBook(nprocs: nat): Book {
    Book([], seq(nprocs, _ => 0), [], [])
  }

  function Times(c: nat, n: nat): (r: seq<nat>)
    ensures |r| == n && forall k :: 0 <= k < n ==> r[k] == c
  {
    seq(n, _ => c)
  }

  function Begin(b: Book, p: nat, want: Want): Book
    requires p < |b.last|
  {
    b.(calls := b.calls + [Call(p, want, [], 0, None)], last := b.last[p := |b.calls|])
  }

  /** A call after a step to t in which `bytes` were moved from position `at` on. */
  function Advance(call: Call, bytes: seq<byte>, at: nat, act: Act, interrupted: bool, t: Sys): Call {
    call.(moved := call.moved + bytes, at := at,
          over := if act.Out? then Some(End(act.ret, act.got, interrupted, |t.accepted| - |t.delivered|, t.writeopen)) else None)
  }

  predicate Inside(b: Book, p: nat, t: Sys) {
    p < |t.procs| && p < |b.last| && b.last[p] < |b.calls|
  }

  /** The book after a step from s to t. */
  function Record(b: Book, s: Sys, step: Step, t: Sys): Book {
    match step
    case StartWrite(p, bytes) => if p < |b.last| then Begin(b, p, ToWrite(bytes)) else b
    case StartRead(p, n) => if p < |b.last| then Begin(b, p, ToRead(n)) else b
    case RunWriter(p) =>
      if !Inside(b, p, t) || p >= |s.procs| || |s.accepted| > |t.accepted| then b
      else
        var c, bytes := b.last[p], t.accepted[|s.accepted|..];
        b.(calls := b.calls[c := Advance(b.calls[c], bytes, |s.accepted|, t.procs[p].act, s.procs[p].killed || !s.readopen, t)],
           ins := b.ins + Times(c, |bytes|))
    case RunReader(p) =>
      if !Inside(b, p, t) || p >= |s.procs| || |s.delivered| > |t.delivered| then b
      else
        var c, bytes := b.last[p], t.delivered[|s.delivered|..];
        b.(calls := b.calls[c := Advance(b.calls[c], bytes, |s.delivered|, t.procs[p].act, s.procs[p].killed, t)],
           outs := b.outs + Times(c, |bytes|))
    case _ => b
  }

  /** The bytes that call c moved. */
  function Of(bytes: seq<byte>, tags: seq<nat>, c: nat): seq<byte>
    requires |bytes| == |tags|
  {
    if bytes == [] then []
    else Of(bytes[..|bytes| - 1], tags[..|bytes| - 1], c) + if tags[|bytes| - 1] == c then [bytes[|bytes| - 1]] else []
  }

  lemma {:induction false} OfMore(bytes: seq<byte>, tags: seq<nat>, more: seq<byte>, d: nat, c: nat)
    requires |bytes| == |tags|
    ensures Of(bytes + more, tags + Times(d, |more|), c) == Of(bytes, tags, c) + if c == d then more else []
    decreases |more|
  {
    if more == [] {
      assert bytes + more == bytes && tags + Times(d, 0) == tags;
    } else {
      var m := |more| - 1;
      OfMore(bytes, tags, more[..m], d, c);
      assert (bytes + more)[..|bytes| + m] == bytes + more[..m];
      assert (tags + Times(d, m + 1))[..|bytes| + m] == tags + Times(d, m);
      assert more[..m] + [more[m]] == more;
    }
  }

  // ---------------------------------------------------------------- what holds of the book

  /** A process inside a call: what it has still to write follows what it has put in, and is in its
      turn behind that. */
  ghost predicate InCall(s: Sys, b: Book, p: nat)
    requires p < |s.procs| && |b.last| == |s.procs|
  {
    match s.procs[p].act
    case Out(_, _) => true
    case Writing(total, rest, _) =>
      && b.last[p] < |b.calls| && b.calls[b.last[p]].p == p && b.calls[b.last[p]].over.None?
      && b.calls[b.last[p]].want == ToWrite(b.calls[b.last[p]].moved + rest) && total == |b.calls[b.last[p]].moved + rest|
    case Reading(n, _) =>
      && b.last[p] < |b.calls| && b.calls[b.last[p]].p == p && b.calls[b.last[p]].over.None?
      && b.calls[b.last[p]].want == ToRead(n) && b.calls[b.last[p]].moved == []
  }

  /** A write that has returned has put in all of its bytes and returned their number, unless it was
      interrupted; then it returned -1 and has put in some of the first. A read has stored for its
      caller the bytes it took out, n or all there were, and returned their number; that is 0 only if
      nobody could write any more or n was 0; or -1 if it was interrupted and took nothing. */
  predicate Returned(want: Want, moved: seq<byte>, end: End) {
    match want
    case ToWrite(src) => (moved == src && end.ret == |src|) || (end.interrupted && end.ret == -1 && moved < src)
    case ToRead(n) =>
      || (end.ret == |moved| <= n && end.got == moved && (|moved| < n ==> end.left == 0) && (moved == [] && n > 0 ==> !end.open))
      || (end.interrupted && end.ret == -1 && moved == [])
  }

  ghost predicate CallOk(s: Sys, b: Book, c: nat)
    requires c < |b.calls| && |b.last| == |s.procs| && |b.ins| == |s.accepted| && |b.outs| == |s.delivered|
  {
    match b.calls[c]
    case Call(p, want, moved, at, over) =>
      && p < |s.procs| && (over.None? ==> b.last[p] == c && !s.procs[p].act.Out?)
      && (over.Some? ==> Returned(want, moved, over.value))
      && moved == Of(if want.ToWrite? then s.accepted else s.delivered, if want.ToWrite? then b.ins else b.outs, c)
      && (want.ToRead? ==> at + |moved| <= |s.delivered| && moved == s.delivered[at..at + |moved|])
  }

  /** Every byte of the two streams was moved by a call of the right kind. */
  predicate TagsOk(b: Book) {
    && (forall k :: 0 <= k < |b.ins| ==> b.ins[k] < |b.calls| && b.calls[b.ins[k]].want.ToWrite?)
    && (forall k :: 0 <= k < |b.outs| ==> b.outs[k] < |b.calls| && b.calls[b.outs[k]].want.ToRead?)
  }

  ghost predicate Kept(s: Sys, b: Book) {
    match s
    case Sys(_, _, _, procs, accepted, delivered) =>
      && Fifo(s) && |b.last| == |procs| && |b.ins| == |accepted| && |b.outs| == |delivered| && TagsOk(b)
      && (forall p :: 0 <= p < |procs| ==> InCall(s, b, p))
      && (forall c :: 0 <= c < |b.calls| ==> CallOk(s, b, c))
  }

  lemma {:induction false} OfNone(bytes: seq<byte>, tags: seq<nat>, c: nat)
    requires |bytes| == |tags| && forall k :: 0 <= k < |tags| ==> tags[k] != c
    ensures Of(bytes, tags, c) == []
    decreases |bytes|
  {
    if bytes != [] {
      OfNone(bytes[..|bytes| - 1], tags[..|bytes| - 1], c);
    }
  }

  lemma BookStarts(data: seq<byte>, nprocs: nat)
    requires |data| == PIPESIZE
    ensures Kept(Init(data, nprocs), NewBook(nprocs))
  {
  }

  // ---------------------------------------------------------------- steps

  /** The same but for sleeping. */
  predicate SameWork(a: Act, b: Act) {
    match a
    case Out(_, _) => b == a
    case Writing(total, rest, _) => b.Writing? && b.total == total && b.rest == rest
    case Reading(n, _) => b.Reading? && b.n == n
  }

  lemma BeginKeeps(s: Sys, t: Sys, b: Book, p: nat, want: Want)
    requires Kept(s, b) && Fifo(t) && p < |s.procs| && s.procs[p].act.Out?
    requires t == s.(procs := SetAct(s.procs, p, match want case ToWrite(src) => Writing(|src|, src, false) case ToRead(n) => Reading(n, false)))
    ensures Kept(t, Begin(b, p, want))
  {
    var d := Begin(b, p, want);
    var c := |b.calls|;
    OfNone(if want.ToWrite? then s.accepted else s.delivered, if want.ToWrite? then b.ins else b.outs, c);
    forall q | 0 <= q < |t.procs| ensures InCall(t, d, q) {
      assert InCall(s, b, q);
      assert want.ToWrite? ==> [] + want.src == want.src;
    }
    forall e | 0 <= e < |d.calls| ensures CallOk(t, d, e) {
      assert e < c ==> CallOk(s, b, e);
    }
  }

  /** A step that moves nothing. */
  lemma QuietKeeps(s: Sys, t: Sys, b: Book)
    requires Kept(s, b) && Fifo(t) && |t.procs| == |s.procs| && t.accepted == s.accepted && t.delivered == s.delivered
    requires forall q :: 0 <= q < |s.procs| ==> SameWork(s.procs[q].act, t.procs[q].act)
    ensures Kept(t, b)
  {
    forall q | 0 <= q < |t.procs| ensures InCall(t, b, q) {
      assert InCall(s, b, q);
    }
    forall c | 0 <= c < |b.calls| ensures CallOk(t, b, c) {
      assert CallOk(s, b, c);
    }
  }

  /** The calls that the step does not move on. */
  lemma OthersKept(s: Sys, t: Sys, b: Book, d: Book, p: nat, c: nat, e: nat)
    requires e < |b.calls| && e != c && c < |b.calls| && p < |s.procs| && |b.last| == |s.procs| == |t.procs| && b.last[p] == c
    requires |b.ins| == |s.accepted| && |b.outs| == |s.delivered| && CallOk(s, b, e)
    requires forall q :: 0 <= q < |s.procs| && q != p ==> SameWork(s.procs[q].act, t.procs[q].act)
    requires |d.calls| == |b.calls| && d.calls[e] == b.calls[e] && d.last == b.last && |d.ins| == |t.accepted| && |d.outs| == |t.delivered|
    requires s.delivered <= t.delivered
    requires Of(t.accepted, d.ins, e) == Of(s.accepted, b.ins, e) && Of(t.delivered, d.outs, e) == Of(s.delivered, b.outs, e)
    ensures CallOk(t, d, e)
  {
  }

  /** What the step has made of process p and its call, n, is all that is new. */
  lemma MoveKeeps(s: Sys, t: Sys, b: Book, d: Book, p: nat, c: nat, n: Call, ins: seq<byte>, outs: seq<byte>)
    requires Kept(s, b) && Fifo(t) && p < |s.procs| && !s.procs[p].act.Out? && |t.procs| == |s.procs| && b.last[p] == c < |b.calls|
    requires forall q :: 0 <= q < |s.procs| && q != p ==> SameWork(s.procs[q].act, t.procs[q].act)
    requires t.accepted == s.accepted + ins && t.delivered == s.delivered + outs && n.want == b.calls[c].want
    requires d == b.(calls := b.calls[c := n], ins := b.ins + Times(c, |ins|), outs := b.outs + Times(c, |outs|))
    requires (ins == [] || n.want.ToWrite?) && (outs == [] || n.want.ToRead?) && CallOk(t, d, c) && InCall(t, d, p)
    ensures Kept(t, d)
  {
    forall e | 0 <= e < |d.calls| ensures CallOk(t, d, e) {
      if e != c {
        OfMore(s.accepted, b.ins, ins, c, e);
        OfMore(s.delivered, b.outs, outs, c, e);
        assert CallOk(s, b, e);
        OthersKept(s, t, b, d, p, c, e);
      }
    }
    forall q | 0 <= q < |t.procs| ensures InCall(t, d, q) {
      assert InCall(s, b, q) && InCall(s, b, p);
    }
  }

  /** What a turn of a writer does: it returns with all bytes in, or interrupted with some of them
      in, or goes to sleep on the rest. */
  lemma WriterDoes(s: Sys, p: nat, bytes: seq<byte>, left: seq<byte>)
    requires Fifo(s) && Enabled(s, RunWriter(p)) && |s.accepted| <= |Apply(s, RunWriter(p)).accepted|
    requires bytes == Apply(s, RunWriter(p)).accepted[|s.accepted|..] && |bytes| <= |s.procs[p].act.rest| && left == s.procs[p].act.rest[|bytes|..]
    ensures var t, a := Apply(s, RunWriter(p)), s.procs[p].act;
      && |t.procs| == |s.procs| && t.accepted == s.accepted + bytes && t.delivered == s.delivered && a.rest == bytes + left
      && (forall q :: 0 <= q < |s.procs| && q != p ==> SameWork(s.procs[q].act, t.procs[q].act))
      && (|| (left == [] && t.procs[p].act == Out(a.total, []))
          || (left != [] && t.procs[p].act == Out(-1, []) && (s.procs[p].killed || !s.readopen))
          || (left != [] && t.procs[p].act == Writing(a.total, left, true)))
  {
    var rest := s.procs[p].act.rest;
    var k := PutSome(s.ring, rest).1;
    assert bytes == rest[..k];
    assert rest == rest[..k] + rest[k..];
  }

  /** So much for its call. */
  lemma WriteCall(s: Sys, t: Sys, b: Book, d: Book, p: nat, c: nat, bytes: seq<byte>, left: seq<byte>)
    requires Kept(s, b) && p < |s.procs| && s.procs[p].act.Writing? && |t.procs| == |s.procs| && b.last[p] == c < |b.calls|
    requires InCall(s, b, p) && CallOk(s, b, c) && t.accepted == s.accepted + bytes && t.delivered == s.delivered && s.procs[p].act.rest == bytes + left
    requires var a, e := s.procs[p].act, t.procs[p].act;
      || (left == [] && e == Out(a.total, []))
      || (left != [] && e == Out(-1, []) && (s.procs[p].killed || !s.readopen))
      || (left != [] && e == Writing(a.total, left, true))
    requires d.last == b.last && d.ins == b.ins + Times(c, |bytes|) && d.outs == b.outs
    requires d.calls == b.calls[c := Advance(b.calls[c], bytes, |s.accepted|, t.procs[p].act, s.procs[p].killed || !s.readopen, t)]
    ensures CallOk(t, d, c) && InCall(t, d, p)
  {
    OfMore(s.accepted, b.ins, bytes, c, c);
    assert b.calls[c].moved + (bytes + left) == b.calls[c].moved + bytes + left;
  }

  lemma WriterKeepsBook(s: Sys, p: nat, b: Book)
    requires Kept(s, b) && Enabled(s, RunWriter(p)) && Fifo(Apply(s, RunWriter(p)))
    ensures var t := Apply(s, RunWriter(p)); Kept(t, Record(b, s, RunWriter(p), t))
  {
    var t := Apply(s, RunWriter(p));
    var c := b.last[p];
    assert InCall(s, b, p) && CallOk(s, b, c);
    var bytes := t.accepted[|s.accepted|..];
    var left := s.procs[p].act.rest[|bytes|..];
    WriterDoes(s, p, bytes, left);
    var d := Record(b, s, RunWriter(p), t);
    assert b.outs + Times(c, 0) == b.outs && t.delivered + [] == t.delivered;
    WriteCall(s, t, b, d, p, c, bytes, left);
    MoveKeeps(s, t, b, d, p, c, d.calls[c], bytes, []);
  }

  /** What a turn of a reader does: it returns with bytes, or interrupted without, or goes to sleep
      without. */
  lemma ReaderDoes(s: Sys, p: nat, bytes: seq<byte>)
    requires Fifo(s) && Enabled(s, RunReader(p)) && |s.delivered| <= |Apply(s, RunReader(p)).delivered|
    requires bytes == Apply(s, RunReader(p)).delivered[|s.delivered|..]
    ensures var t, n := Apply(s, RunReader(p)), s.procs[p].act.n;
      && |t.procs| == |s.procs| && t.accepted == s.accepted && t.delivered == s.delivered + bytes
      && (forall q :: 0 <= q < |s.procs| && q != p ==> SameWork(s.procs[q].act, t.procs[q].act))
      && (|| (t.procs[p].act == Out(|bytes|, bytes) && |bytes| <= n && (|bytes| < n ==> |t.accepted| == |t.delivered|)
              && (bytes == [] && n > 0 ==> !t.writeopen))
          || (t.procs[p].act == Out(-1, []) && s.procs[p].killed && bytes == [])
          || (t.procs[p].act == Reading(n, true) && bytes == []))
  {
    var t, n := Apply(s, RunReader(p)), s.procs[p].act.n;
    TakeSomeHolds(s.ring, s.accepted, s.delivered, n);
    CounterTests(s.ring, s.accepted, s.delivered);
    if Empty(s.ring) && s.writeopen {
      assert bytes == [];
    } else {
      assert bytes == TakeSome(s.ring, n).1;
      CounterTests(t.ring, t.accepted, t.delivered);
    }
  }

  lemma ReadCall(s: Sys, t: Sys, b: Book, d: Book, p: nat, c: nat, bytes: seq<byte>)
    requires Kept(s, b) && p < |s.procs| && s.procs[p].act.Reading? && |t.procs| == |s.procs| && b.last[p] == c < |b.calls|
    requires InCall(s, b, p) && CallOk(s, b, c) && t.accepted == s.accepted && t.delivered == s.delivered + bytes
    requires var n, e := s.procs[p].act.n, t.procs[p].act;
      || (e == Out(|bytes|, bytes) && |bytes| <= n && (|bytes| < n ==> |t.accepted| == |t.delivered|) && (bytes == [] && n > 0 ==> !t.writeopen))
      || (e == Out(-1, []) && s.procs[p].killed && bytes == [])
      || (e == Reading(n, true) && bytes == [])
    requires d.last == b.last && d.outs == b.outs + Times(c, |bytes|) && d.ins == b.ins
    requires d.calls == b.calls[c := Advance(b.calls[c], bytes, |s.delivered|, t.procs[p].act, s.procs[p].killed, t)]
    ensures CallOk(t, d, c) && InCall(t, d, p)
  {
    OfMore(s.delivered, b.outs, bytes, c, c);
    assert [] + bytes == bytes;
  }

  lemma ReaderKeepsBook(s: Sys, p: nat, b: Book)
    requires Kept(s, b) && Enabled(s, RunReader(p)) && Fifo(Apply(s, RunReader(p)))
    ensures var t := Apply(s, RunReader(p)); Kept(t, Record(b, s, RunReader(p), t))
  {
    var t := Apply(s, RunReader(p));
    var c := b.last[p];
    assert InCall(s, b, p) && CallOk(s, b, c);
    var bytes := t.delivered[|s.delivered|..];
    ReaderDoes(s, p, bytes);
    var d := Record(b, s, RunReader(p), t);
    assert b.ins + Times(c, 0) == b.ins && t.accepted + [] == t.accepted;
    ReadCall(s, t, b, d, p, c, bytes);
    MoveKeeps(s, t, b, d, p, c, d.calls[c], [], bytes);
  }

  lemma StepKeepsBook(s: Sys, step: Step, b: Book)
    requires Kept(s, b) && Enabled(s, step)
    ensures Kept(Apply(s, step), Record(b, s, step, Apply(s, step)))
  {
    var t := Apply(s, step);
    StepKeepsFifo(s, step);
    match step
    case StartWrite(p, bytes) => BeginKeeps(s, t, b, p, ToWrite(bytes));
    case StartRead(p, n) => BeginKeeps(s, t, b, p, ToRead(n));
    case RunWriter(p) => WriterKeepsBook(s, p, b);
    case RunReader(p) => ReaderKeepsBook(s, p, b);
    case _ => QuietKeeps(s, t, b);
  }

  // ---------------------------------------------------------------- whole runs

  /** The book at the end of a run. */
  function BookOf(b: Book, s: Sys, steps: seq<Step>): Book
    decreases |steps|
  {
    if steps == [] || |s.ring.data| != PIPESIZE || !Enabled(s, steps[0]) then b
    else var t := Apply(s, steps[0]); BookOf(Record(b, s, steps[0], t), t, steps[1..])
  }

  lemma {:induction false} RunKeepsBook(s: Sys, steps: seq<Step>, t: Sys, b: Book)
    requires Kept(s, b) && Run(s, steps, t)
    ensures Kept(t, BookOf(b, s, steps))
    decreases |steps|
  {
    if steps != [] {
      StepKeepsBook(s, steps[0], b);
      RunKeepsBook(Apply(s, steps[0]), steps[1..], t, Record(b, s, steps[0], Apply(s, steps[0])));
    }
  }

  /** In every run of a new pipe: what a write has put in, followed by what it has still to put in,
      is what it was given, and it returns with nothing left unless interrupted; what has been
      accepted is an interleaving of what the writes have put in, each in order; the bytes a read
      returns are the next of the stream; and what has been delivered is what the reads returned. */
  lemma CallsMoveBytes(data: seq<byte>, nprocs: nat, steps: seq<Step>, t: Sys) returns (b: Book)
    requires |data| == PIPESIZE && Run(Init(data, nprocs), steps, t)
    ensures b == BookOf(NewBook(nprocs), Init(data, nprocs), steps)
    ensures |b.last| == |t.procs| && |b.ins| == |t.accepted| && |b.outs| == |t.delivered| && TagsOk(b)
    ensures forall p :: 0 <= p < |t.procs| && t.procs[p].act.Writing? ==>
      b.last[p] < |b.calls| && b.calls[b.last[p]].want == ToWrite(b.calls[b.last[p]].moved + t.procs[p].act.rest)
    ensures forall c :: 0 <= c < |b.calls| && b.calls[c].over.Some? ==> Returned(b.calls[c].want, b.calls[c].moved, b.calls[c].over.value)
    ensures forall c :: 0 <= c < |b.calls| && b.calls[c].want.ToWrite? ==> b.calls[c].moved == Of(t.accepted, b.ins, c)
    ensures forall c :: 0 <= c < |b.calls| && b.calls[c].want.ToRead? ==>
      && b.calls[c].moved == Of(t.delivered, b.outs, c) && b.calls[c].at + |b.calls[c].moved| <= |t.delivered|
      && b.calls[c].moved == t.delivered[b.calls[c].at..b.calls[c].at + |b.calls[c].moved|]
  {
    BookStarts(data, nprocs);
    b := BookOf(NewBook(nprocs), Init(data, nprocs), steps);
    RunKeepsBook(Init(data, nprocs), steps, t, NewBook(nprocs));
    forall p | 0 <= p < |t.procs| && t.procs[p].act.Writing? ensures b.last[p] < |b.calls| && b.calls[b.last[p]].want == ToWrite(b.calls[b.last[p]].moved + t.procs[p].act.rest) {
      assert InCall(t, b, p);
    }
    forall c | 0 <= c < |b.calls|
      ensures b.calls[c].over.Some? ==> Returned(b.calls[c].want, b.calls[c].moved, b.calls[c].over.value)
      ensures b.calls[c].want.ToWrite? ==> b.calls[c].moved == Of(t.accepted, b.ins, c)
      ensures b.calls[c].want.ToRead? ==>
        && b.calls[c].moved == Of(t.delivered, b.outs, c) && b.calls[c].at + |b.calls[c].moved| <= |t.delivered|
        && b.calls[c].moved == t.delivered[b.calls[c].at..b.calls[c].at + |b.calls[c].moved|]
    {
      assert CallOk(t, b, c);
    }
  }
}
