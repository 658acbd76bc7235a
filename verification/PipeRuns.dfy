/** Readers and writers of one pipe, in every interleaving. */
module PipeRuns {
  import opened Basics
  import opened Pipe

  /** What a process is doing with the pipe: nothing since a call that returned ret and stored the
      bytes got; writing `rest`, the last of `total` bytes; or reading up to n bytes. asleep means in the
      sleep of pipewrite or piperead. */
  datatype Act = Out(ret: int, got: seq<byte>) | Writing(total: nat, rest: seq<byte>, asleep: bool) | Reading(n: nat, asleep: bool)

  datatype Proc = Proc(act: Act, killed: bool)

  /** `accepted` and `delivered` record the bytes that went in and came out. */
  datatype Sys = Sys(ring: Ring, readopen: bool, writeopen: bool, procs: seq<Proc>, accepted: seq<byte>, delivered: seq<byte>)

  function Init(data: seq<byte>, nprocs: nat): Sys {
    Sys(Ring(data, 0, 0), true, true, seq(nprocs, _ => Proc(Out(0, []), false)), [], [])
  }

  datatype Step =
    | StartWrite(p: nat, bytes: seq<byte>)
    | StartRead(p: nat, n: nat)
    | RunWriter(p: nat)
    | RunReader(p: nat)
    | CloseWrite
    | CloseRead
    | Kill(p: nat)

  /** The system calls go through an open descriptor, and an end is closed when the last
      descriptor for it goes away, which no process inside a call on it can let happen. */
  predicate Enabled(s: Sys, step: Step) {
    match step
    case StartWrite(p, _) => p < |s.procs| && s.procs[p].act.Out? && s.writeopen
    case StartRead(p, _) => p < |s.procs| && s.procs[p].act.Out? && s.readopen
    case RunWriter(p) => p < |s.procs| && s.procs[p].act.Writing? && !s.procs[p].act.asleep
    case RunReader(p) => p < |s.procs| && s.procs[p].act.Reading? && !s.procs[p].act.asleep
    case CloseWrite => s.writeopen && forall p :: 0 <= p < |s.procs| ==> !s.procs[p].act.Writing?
    case CloseRead => s.readopen && forall p :: 0 <= p < |s.procs| ==> !s.procs[p].act.Reading?
    case Kill(p) => p < |s.procs|
  }

  function Roused(q: Proc, writers: bool, readers: bool): Proc {
    if writers && q.act.Writing? then q.(act := Writing(q.act.total, q.act.rest, false))
    else if readers && q.act.Reading? then q.(act := Reading(q.act.n, false))
    else q
  }

  /** wakeup(&p->nwrite) and wakeup(&p->nread). */
  function Rouse(procs: seq<Proc>, writers: bool, readers: bool): (r: seq<Proc>)
    ensures |r| == |procs| && forall i :: 0 <= i < |r| ==> r[i] == Roused(procs[i], writers, readers)
  {
    seq(|procs|, i requires 0 <= i < |procs| => Roused(procs[i], writers, readers))
  }

  function SetAct(procs: seq<Proc>, p: nat, act: Act): seq<Proc>
    requires p < |procs|
  {
    procs[p := procs[p].(act := act)]
  }

  function WriterStep(s: Sys, p: nat): Sys
    requires |s.ring.data| == PIPESIZE && Enabled(s, RunWriter(p))
  {
    var total, rest := s.procs[p].act.total, s.procs[p].act.rest;
    var (ring, k) := PutSome(s.ring, rest);
    var t := s.(ring := ring, accepted := s.accepted + rest[..k]);
    if k == |rest| then t.(procs := Rouse(SetAct(s.procs, p, Out(total, [])), false, true))
    else if !s.readopen || s.procs[p].killed then t.(procs := SetAct(s.procs, p, Out(-1, [])))
    else t.(procs := SetAct(Rouse(s.procs, false, true), p, Writing(total, rest[k..], true)))
  }

  function ReaderStep(s: Sys, p: nat): Sys
    requires |s.ring.data| == PIPESIZE && Enabled(s, RunReader(p))
  {
    var n := s.procs[p].act.n;
    if Empty(s.ring) && s.writeopen then
      s.(procs := SetAct(s.procs, p, if s.procs[p].killed then Out(-1, []) else Reading(n, true)))
    else
      var (ring, bytes) := TakeSome(s.ring, n);
      s.(ring := ring, delivered := s.delivered + bytes, procs := Rouse(SetAct(s.procs, p, Out(|bytes|, bytes)), true, false))
  }

  function Apply(s: Sys, step: Step): Sys
    requires |s.ring.data| == PIPESIZE && Enabled(s, step)
  {
    match step
    case StartWrite(p, bytes) => s.(procs := SetAct(s.procs, p, Writing(|bytes|, bytes, false)))
    case StartRead(p, n) => s.(procs := SetAct(s.procs, p, Reading(n, false)))
    case RunWriter(p) => WriterStep(s, p)
    case RunReader(p) => ReaderStep(s, p)
    case CloseWrite => s.(writeopen := false, procs := Rouse(s.procs, false, true))
    case CloseRead => s.(readopen := false, procs := Rouse(s.procs, true, false))
    case Kill(p) => s.(procs := s.procs[p := Roused(s.procs[p], true, true).(killed := true)])
  }

  // ---------------------------------------------------------------- first in, first out

  ghost predicate Fifo(s: Sys) {
    && Holds(s.ring, s.accepted, s.delivered)
    && (!s.readopen ==> forall p :: 0 <= p < |s.procs| ==> !s.procs[p].act.Reading?)
    && (!s.writeopen ==> forall p :: 0 <= p < |s.procs| ==> !s.procs[p].act.Writing?)
  }

  lemma StepKeepsFifo(s: Sys, step: Step)
    requires Fifo(s) && Enabled(s, step)
    ensures Fifo(Apply(s, step))
  {
    match step
    case RunWriter(p) => PutSomeHolds(s.ring, s.accepted, s.delivered, s.procs[p].act.rest);
    case RunReader(p) => TakeSomeHolds(s.ring, s.accepted, s.delivered, s.procs[p].act.n);
    case _ =>
  }

  ghost predicate Run(s: Sys, steps: seq<Step>, t: Sys)
    decreases |steps|
  {
    if steps == [] then t == s
    else |s.ring.data| == PIPESIZE && Enabled(s, steps[0]) && Run(Apply(s, steps[0]), steps[1..], t)
  }

  /** In every run, kills included, what has been delivered is a prefix of what has been
      accepted and at most PIPESIZE bytes are in between, however often the counters wrap. */
  lemma {:induction false} PipeIsFifo(s: Sys, steps: seq<Step>, t: Sys)
    requires Fifo(s) && Run(s, steps, t)
    ensures Fifo(t) && t.delivered <= t.accepted && |t.accepted| - |t.delivered| <= PIPESIZE
    decreases |steps|
  {
    if steps != [] {
      StepKeepsFifo(s, steps[0]);
      PipeIsFifo(Apply(s, steps[0]), steps[1..], t);
    }
  }

  // ---------------------------------------------------------------- lost wakeups

  /** A sleeping reader has nothing to read and somebody may still write; a sleeping writer
      has no room and somebody may still read. */
  ghost predicate SleepersWait(s: Sys) {
    forall p :: 0 <= p < |s.procs| ==>
      && (s.procs[p].act.Reading? && s.procs[p].act.asleep ==> Empty(s.ring) && s.writeopen)
      && (s.procs[p].act.Writing? && s.procs[p].act.asleep ==> Full(s.ring) && s.readopen)
  }

  predicate ReaderAsleep(s: Sys) {
    exists q :: 0 <= q < |s.procs| && s.procs[q].act.Reading? && s.procs[q].act.asleep
  }

  /** A killed writer puts some bytes in, finds the ring full again and returns without
      waking the readers. */
  predicate Forgets(s: Sys, step: Step)
    requires |s.ring.data| == PIPESIZE
  {
    step.RunWriter? && Enabled(s, step) && s.procs[step.p].killed && s.readopen && ReaderAsleep(s)
    && var k := PutSome(s.ring, s.procs[step.p].act.rest).1; 0 < k < |s.procs[step.p].act.rest|
  }

  lemma WriterKeepsSleepers(s: Sys, p: nat)
    requires Fifo(s) && SleepersWait(s) && Enabled(s, RunWriter(p))
    ensures SleepersWait(Apply(s, RunWriter(p))) <==> !Forgets(s, RunWriter(p))
  {
    var rest := s.procs[p].act.rest;
    var (ring, k) := PutSome(s.ring, rest);
    PutSomeHolds(s.ring, s.accepted, s.delivered, rest);
    CounterTests(s.ring, s.accepted, s.delivered);
    CounterTests(ring, s.accepted + rest[..k], s.delivered);
    var t := Apply(s, RunWriter(p));
    if k > 0 {
      assert !Full(s.ring) && !Empty(ring);
    } else {
      assert s.accepted + rest[..0] == s.accepted;
      assert Full(s.ring) == Full(ring) && Empty(s.ring) == Empty(ring);
    }
    if Forgets(s, RunWriter(p)) {
      var q :| 0 <= q < |s.procs| && s.procs[q].act.Reading? && s.procs[q].act.asleep;
      assert t.procs[q] == s.procs[q];
    }
  }

  lemma ReaderKeepsSleepers(s: Sys, p: nat)
    requires Fifo(s) && SleepersWait(s) && Enabled(s, RunReader(p))
    ensures SleepersWait(Apply(s, RunReader(p)))
  {
    var n := s.procs[p].act.n;
    TakeSomeHolds(s.ring, s.accepted, s.delivered, n);
  }

  /** A step keeps every sleeper justified exactly when it is not a killed writer's early
      return: that is the one wakeup pipe.c loses. */
  lemma StepKeepsSleepers(s: Sys, step: Step)
    requires Fifo(s) && SleepersWait(s) && Enabled(s, step)
    ensures SleepersWait(Apply(s, step)) <==> !Forgets(s, step)
  {
    match step
    case RunWriter(p) => WriterKeepsSleepers(s, p);
    case RunReader(p) => ReaderKeepsSleepers(s, p);
    case _ =>
  }

  ghost predicate NobodyKilled(s: Sys) {
    forall p :: 0 <= p < |s.procs| ==> !s.procs[p].killed
  }

  /** In runs without kills nobody sleeps in vain, and a reader and a writer never sleep at
      the same time. */
  lemma {:induction false} NoLostWakeup(s: Sys, steps: seq<Step>, t: Sys)
    requires Fifo(s) && SleepersWait(s) && NobodyKilled(s) && Run(s, steps, t)
    requires forall i :: 0 <= i < |steps| ==> !steps[i].Kill?
    ensures SleepersWait(t)
    ensures ReaderAsleep(t) ==> forall q :: 0 <= q < |t.procs| && t.procs[q].act.Writing? ==> !t.procs[q].act.asleep
    decreases |steps|
  {
    if steps != [] {
      StepKeepsFifo(s, steps[0]);
      StepKeepsSleepers(s, steps[0]);
      NoLostWakeup(Apply(s, steps[0]), steps[1..], t);
    } else {
      CounterTests(s.ring, s.accepted, s.delivered);
    }
  }

  /** Nobody who has been killed sleeps on the pipe. */
  ghost predicate KilledAwake(s: Sys) {
    forall p :: 0 <= p < |s.procs| && s.procs[p].killed ==> s.procs[p].act.Out? || !s.procs[p].act.asleep
  }

  lemma StepKeepsKilledAwake(s: Sys, step: Step)
    requires KilledAwake(s) && |s.ring.data| == PIPESIZE && Enabled(s, step)
    ensures KilledAwake(Apply(s, step))
    ensures (step.RunWriter? || step.RunReader?) && s.procs[step.p].killed ==> Apply(s, step).procs[step.p].act.Out?
    ensures step.Kill? ==> Apply(s, step).procs[step.p].killed
  {
  }

  /** In every run whoever has been killed is awake, and the next turn of its call ends the call. */
  lemma {:induction false} KilledReturns(s: Sys, steps: seq<Step>, t: Sys, step: Step)
    requires KilledAwake(s) && Run(s, steps, t) && |t.ring.data| == PIPESIZE && Enabled(t, step)
    ensures KilledAwake(t)
    ensures (step.RunWriter? || step.RunReader?) && t.procs[step.p].killed ==> Apply(t, step).procs[step.p].act.Out?
    decreases |steps|
  {
    if steps == [] {
      StepKeepsKilledAwake(t, step);
    } else {
      StepKeepsKilledAwake(s, steps[0]);
      KilledReturns(Apply(s, steps[0]), steps[1..], t, step);
    }
  }

  // ---------------------------------------------------------------- closed ends

  /** Nobody sleeps for bytes that nobody can write any more, or for room that nobody can make. */
  ghost predicate EndsOk(s: Sys) {
    forall p :: 0 <= p < |s.procs| ==>
      && (s.procs[p].act.Reading? && s.procs[p].act.asleep ==> s.writeopen)
      && (s.procs[p].act.Writing? && s.procs[p].act.asleep ==> s.readopen)
  }

  lemma StepKeepsEnds(s: Sys, step: Step)
    requires EndsOk(s) && |s.ring.data| == PIPESIZE && Enabled(s, step)
    ensures var t := Apply(s, step);
      && EndsOk(t) && (t.writeopen <==> s.writeopen && !step.CloseWrite?) && (t.readopen <==> s.readopen && !step.CloseRead?)
      && (step.RunReader? && !s.writeopen ==> t.procs[step.p].act.Out? && t.procs[step.p].act.ret >= 0)
      && (step.RunWriter? && !s.readopen ==> t.procs[step.p].act.Out?)
  {
  }

  /** In every run an end is open as long as it has not been closed. Once the write end is closed
      nobody sleeps in a read, and the next turn of a read ends it, with what is there or with 0;
      once the read end is closed the next turn of a write ends it. */
  lemma {:induction false} ClosedEnds(s: Sys, steps: seq<Step>, t: Sys, step: Step)
    requires EndsOk(s) && Run(s, steps, t) && |t.ring.data| == PIPESIZE && Enabled(t, step)
    ensures EndsOk(t) && (t.writeopen <==> s.writeopen && CloseWrite !in steps) && (t.readopen <==> s.readopen && CloseRead !in steps)
    ensures CloseWrite in steps && step.RunReader? ==> Apply(t, step).procs[step.p].act.Out? && Apply(t, step).procs[step.p].act.ret >= 0
    ensures CloseRead in steps && step.RunWriter? ==> Apply(t, step).procs[step.p].act.Out?
    decreases |steps|
  {
    if steps == [] {
      StepKeepsEnds(t, step);
    } else {
      StepKeepsEnds(s, steps[0]);
      ClosedEnds(Apply(s, steps[0]), steps[1..], t, step);
      assert steps == [steps[0]] + steps[1..];
      StepKeepsEnds(t, step);
    }
  }

  // ---------------------------------------------------------------- the wakeup that is lost

  lemma RunSnoc(s: Sys, steps: seq<Step>, t: Sys, step: Step)
    requires Run(s, steps, t) && |t.ring.data| == PIPESIZE && Enabled(t, step)
    ensures Run(s, steps + [step], Apply(t, step))
    decreases |steps|
  {
    if steps == [] {
      assert [step][1..] == [];
    } else {
      RunSnoc(Apply(s, steps[0]), steps[1..], t, step);
      assert (steps + [step])[1..] == steps[1..] + [step];
    }
  }

  /** How many bytes a writer gets in. */
  lemma PutCount(r: Ring, accepted: seq<byte>, delivered: seq<byte>, src: seq<byte>)
    requires Holds(r, accepted, delivered) && |src| >= PIPESIZE - (|accepted| - |delivered|)
    ensures PutSome(r, src).1 == PIPESIZE - (|accepted| - |delivered|) && Full(PutSome(r, src).0)
  {
    PutSomeHolds(r, accepted, delivered, src);
    var (r', k) := PutSome(r, src);
    CounterTests(r', accepted + src[..k], delivered);
  }

  /** One writer and one reader: the writer fills the pipe and sleeps, the reader drains it
      and sleeps on the next read, the writer is killed before it runs again. It fills the
      pipe, returns, and leaves the reader asleep in front of a full pipe. */
  lemma KilledWriterLosesWakeup(data: seq<byte>, src: seq<byte>) returns (steps: seq<Step>, t: Sys)
    requires |data| == PIPESIZE && |src| > 2 * PIPESIZE
    ensures Run(Init(data, 2), steps, t) && ReaderAsleep(t) && Full(t.ring) && !SleepersWait(t)
  {
    var s0 := Init(data, 2);
    assert Fifo(s0);
    var s1 := Apply(s0, StartWrite(0, src));
    RunSnoc(s0, [], s0, StartWrite(0, src));
    PutCount(s1.ring, [], [], src);
    StepKeepsFifo(s1, RunWriter(0));
    var s2 := Apply(s1, RunWriter(0));
    RunSnoc(s0, [StartWrite(0, src)], s1, RunWriter(0));
    assert s2.procs[0].act == Writing(|src|, src[PIPESIZE..], true) && s2.delivered == [] && |s2.accepted| == PIPESIZE;
    steps := [StartWrite(0, src)] + [RunWriter(0)];
    steps, t := DrainAndSleep(s0, steps, s2);
    assert t.procs[0].act == Writing(|src|, src[PIPESIZE..], false);
    PutCount(t.ring, t.accepted, t.delivered, src[PIPESIZE..]);
    StepKeepsFifo(t, RunWriter(0));
    var u := Apply(t, RunWriter(0));
    RunSnoc(s0, steps, t, RunWriter(0));
    steps := steps + [RunWriter(0)];
    assert u.procs[1].act == Reading(1, true);
    CounterTests(u.ring, u.accepted, u.delivered);
    t := u;
  }

  /** A pipe with a writer asleep and a reader outside. */
  predicate Pair(s: Sys) {
    && s.readopen && s.writeopen && |s.procs| == 2
    && s.procs[0].act.Writing? && s.procs[1].act.Out? && !s.procs[1].killed
  }

  /** The reader takes everything out of a full pipe. */
  lemma Drain(s0: Sys, before: seq<Step>, s: Sys) returns (steps: seq<Step>, t: Sys)
    requires Run(s0, before, s) && Fifo(s) && Pair(s) && |s.accepted| == |s.delivered| + PIPESIZE
    ensures Run(s0, steps, t) && Fifo(t) && Pair(t) && |t.accepted| == |t.delivered|
    ensures t.procs[0].act == Writing(s.procs[0].act.total, s.procs[0].act.rest, false)
  {
    CounterTests(s.ring, s.accepted, s.delivered);
    var s1 := Apply(s, StartRead(1, PIPESIZE));
    RunSnoc(s0, before, s, StartRead(1, PIPESIZE));
    StepKeepsFifo(s1, RunReader(1));
    TakeSomeHolds(s1.ring, s1.accepted, s1.delivered, PIPESIZE);
    t := Apply(s1, RunReader(1));
    RunSnoc(s0, before + [StartRead(1, PIPESIZE)], s1, RunReader(1));
    CounterTests(t.ring, t.accepted, t.delivered);
    steps := before + [StartRead(1, PIPESIZE)] + [RunReader(1)];
  }

  /** From a full pipe with the writer asleep: read everything, read again, kill the writer. */
  lemma DrainAndSleep(s0: Sys, before: seq<Step>, s: Sys) returns (steps: seq<Step>, t: Sys)
    requires Run(s0, before, s) && Fifo(s) && Pair(s) && |s.accepted| == |s.delivered| + PIPESIZE
    ensures Run(s0, steps, t) && Fifo(t) && t.readopen && t.writeopen && |t.procs| == 2
    ensures t.procs[0] == Proc(Writing(s.procs[0].act.total, s.procs[0].act.rest, false), true) && t.procs[1] == Proc(Reading(1, true), false)
    ensures |t.accepted| == |t.delivered|
  {
    var some, s2 := Drain(s0, before, s);
    CounterTests(s2.ring, s2.accepted, s2.delivered);
    var s3 := Apply(s2, StartRead(1, 1));
    RunSnoc(s0, some, s2, StartRead(1, 1));
    var s4 := Apply(s3, RunReader(1));
    RunSnoc(s0, some + [StartRead(1, 1)], s3, RunReader(1));
    t := Apply(s4, Kill(0));
    RunSnoc(s0, some + [StartRead(1, 1)] + [RunReader(1)], s4, Kill(0));
    steps := some + [StartRead(1, 1)] + [RunReader(1)] + [Kill(0)];
  }

  // ---------------------------------------------------------------- the buffer in place

  /** struct pipe's ring: a fixed array and two counters. */
  class Buffer {
    const data: array<byte>
    var nread: nat
    var nwrite: nat

    ghost predicate Valid()
      reads this
    {
      data.Length == PIPESIZE && nread < WRAP && nwrite < WRAP
    }

    ghost function Value(): Ring
      reads this, data
    {
      Ring(data[..], nread, nwrite)
    }

    constructor ()
      ensures Valid() && fresh(data) && nread == 0 && nwrite == 0
    {
      data := new byte[PIPESIZE](_ => 0);
      nread, nwrite := 0, 0;
    }

    /** pipewrite's loop up to the point where the ring is full. */
    method Put(addr: seq<byte>) returns (i: nat)
      requires Valid()
      modifies this`nwrite, data
      ensures Valid() && (Value(), i) == PutSome(old(Value()), addr)
    {
      i := 0;
      ghost var r0 := Value();
      assert addr[0..] == addr;
      while i < |addr| && nwrite != (nread + PIPESIZE) % WRAP
        invariant Valid() && 0 <= i <= |addr|
        invariant var rest := PutSome(Value(), addr[i..]); PutSome(r0, addr) == (rest.0, rest.1 + i)
      {
        ghost var r := Value();
        data[nwrite % PIPESIZE] := addr[i];
        nwrite := (nwrite + 1) % WRAP;
        assert Value() == PutOne(r, addr[i]);
        assert addr[i..][1..] == addr[i + 1..];
        i := i + 1;
      }
    }

    /** piperead's copy loop. */
    method Take(n: nat) returns (addr: seq<byte>)
      requires Valid()
      modifies this`nread
      ensures Valid() && (Value(), addr) == TakeSome(old(Value()), n)
    {
      addr := [];
      ghost var r0 := Value();
      assert [] + TakeSome(r0, n).1 == TakeSome(r0, n).1;
      while |addr| < n && nread != nwrite
        invariant Valid() && |addr| <= n
        invariant var rest := TakeSome(Value(), n - |addr|); TakeSome(r0, n) == (rest.0, addr + rest.1)
      {
        ghost var r := Value();
        var b := data[nread % PIPESIZE];
        nread := (nread + 1) % WRAP;
        assert Value() == r.(nread := (r.nread + 1) % WRAP);
        ghost var rest := TakeSome(Value(), n - |addr| - 1).1;
        assert addr + ([b] + rest) == addr + [b] + rest;
        addr := addr + [b];
      }
      assert addr + [] == addr;
    }
  }
}
