/** begin_op, log_write, end_op and commit of log.c as a protocol between any number of
    processes. A step is one critical section of log.lock, except that log_write is two
    steps: its capacity check runs before it takes the lock. */
module GroupCommit {
  import opened Basics

  /** A process: not in a file-system operation, asleep in begin_op, woken there, inside
      an operation that has logged `blocks` and may have checked the room for one more,
      or in commit, before or after the list is emptied. */
  datatype Proc =
    | Outside
    | Asleep
    | Woken
    | Active(blocks: set<int>, checked: Option<int>)
    | Committer(cleared: bool)

  /** lh are the entries of log.lh.block; log.lh.n is its length. */
  datatype State = State(lh: seq<int>, outstanding: int, committing: bool, procs: seq<Proc>)

  datatype Step = Begin(p: nat) | Check(p: nat, b: int) | Append(p: nat) | End(p: nat) | Clear(p: nat) | Finish(p: nat)

  function Init(nprocs: nat): State {
    State([], 0, false, seq(nprocs, _ => Outside))
  }

  // ---------------------------------------------------------------- steps

  /** wakeup(&log). */
  function Wake(procs: seq<Proc>): (r: seq<Proc>)
    ensures |r| == |procs|
    ensures forall i :: 0 <= i < |r| ==> r[i] == if procs[i].Asleep? then Woken else procs[i]
  {
    seq(|procs|, i requires 0 <= i < |procs| => if procs[i].Asleep? then Woken else procs[i])
  }

  predicate MustWait(s: State) {
    s.committing || |s.lh| + (s.outstanding + 1) * MAXOPBLOCKS > LOGSIZE
  }

  /** log_write's panic("too big a transaction"). */
  predicate TooBig(size: int, s: State) {
    |s.lh| >= LOGSIZE || |s.lh| >= size - 1
  }

  /** The process is at the point of the step. */
  predicate AtStep(s: State, step: Step) {
    && step.p < |s.procs|
    && var q := s.procs[step.p];
       match step
       case Begin(_) => q.Outside? || q.Woken?
       case Check(_, _) => q.Active? && q.checked.None?
       case Append(_) => q.Active? && q.checked.Some?
       case End(_) => q.Active? && q.checked.None?
       case Clear(_) => q == Committer(false)
       case Finish(_) => q == Committer(true)
  }

  /** The one thing asked of operations is that each logs at most MAXOPBLOCKS distinct
      blocks; a log_write whose check fails is a panic, not a step. */
  predicate Enabled(size: int, s: State, step: Step) {
    && AtStep(s, step)
    && (step.Check? ==> |s.procs[step.p].blocks + {step.b}| <= MAXOPBLOCKS && !TooBig(size, s))
  }

  function Apply(s: State, step: Step): State
    requires AtStep(s, step)
  {
    var q := s.procs[step.p];
    match step
    case Begin(p) =>
      if MustWait(s) then s.(procs := s.procs[p := Asleep])
      else s.(outstanding := s.outstanding + 1, procs := s.procs[p := Active({}, None)])
    case Check(p, b) => s.(procs := s.procs[p := q.(checked := Some(b))])
    case Append(p) =>
      var b := q.checked.value;
      s.(lh := if b in s.lh then s.lh else s.lh + [b], procs := s.procs[p := Active(q.blocks + {b}, None)])
    case End(p) =>
      var out := s.outstanding - 1;
      if out == 0 then s.(outstanding := out, committing := true, procs := s.procs[p := Committer(false)])
      else s.(outstanding := out, procs := Wake(s.procs[p := Outside]))
    case Clear(p) => s.(lh := [], procs := s.procs[p := Committer(true)])
    case Finish(p) => s.(committing := false, procs := Wake(s.procs[p := Outside]))
  }

  ghost predicate Run(size: int, s: State, steps: seq<Step>, t: State)
    decreases |steps|
  {
    if steps == [] then t == s
    else Enabled(size, s, steps[0]) && Run(size, Apply(s, steps[0]), steps[1..], t)
  }

  // ---------------------------------------------------------------- sums over processes

  function Sum(procs: seq<Proc>, w: Proc -> int): int {
    if procs == [] then 0 else w(procs[0]) + Sum(procs[1..], w)
  }

  lemma SumUpdate(procs: seq<Proc>, i: nat, q: Proc, w: Proc -> int)
    requires i < |procs|
    ensures Sum(procs[i := q], w) == Sum(procs, w) - w(procs[i]) + w(q)
  {
    if i == 0 {
      assert procs[i := q][1..] == procs[1..];
    } else {
      SumUpdate(procs[1..], i - 1, q, w);
      assert procs[i := q][1..] == procs[1..][i - 1 := q];
    }
  }

  lemma SumWake(procs: seq<Proc>, w: Proc -> int)
    requires w(Asleep) == w(Woken)
    ensures Sum(Wake(procs), w) == Sum(procs, w)
  {
    if procs != [] {
      SumWake(procs[1..], w);
      assert Wake(procs)[1..] == Wake(procs[1..]);
    }
  }

  lemma SumAtLeast(procs: seq<Proc>, i: nat, w: Proc -> int)
    requires i < |procs| && forall j :: 0 <= j < |procs| ==> w(procs[j]) >= 0
    ensures Sum(procs, w) >= w(procs[i])
  {
    if i == 0 {
      SumNonNegative(procs[1..], w);
    } else {
      SumAtLeast(procs[1..], i - 1, w);
    }
  }

  lemma SumNonNegative(procs: seq<Proc>, w: Proc -> int)
    requires forall j :: 0 <= j < |procs| ==> w(procs[j]) >= 0
    ensures Sum(procs, w) >= 0
  {
    if procs != [] {
      SumNonNegative(procs[1..], w);
    }
  }

  const ActiveOne: Proc -> int := (q: Proc) => if q.Active? then 1 else 0
  const CommitterOne: Proc -> int := (q: Proc) => if q.Committer? then 1 else 0
  const UnusedOf: Proc -> int := (q: Proc) => if q.Active? then MAXOPBLOCKS - |q.blocks| else 0

  // ---------------------------------------------------------------- invariant

  ghost predicate Accounted(s: State) {
    && s.outstanding == Sum(s.procs, ActiveOne)
    && Sum(s.procs, CommitterOne) == (if s.committing then 1 else 0)
    && |s.lh| + Sum(s.procs, UnusedOf) <= LOGSIZE
  }

  ghost predicate ProcOk(s: State, q: Proc) {
    && (q.Active? ==> |q.blocks| <= MAXOPBLOCKS && forall b :: b in q.blocks ==> b in s.lh)
    && (q.Active? && q.checked.Some? ==> |q.blocks + {q.checked.value}| <= MAXOPBLOCKS)
    && (q.Committer? ==> s.committing && (q.cleared ==> s.lh == []))
    && (q.Asleep? ==> MustWait(s) && (s.outstanding > 0 || s.committing))
  }

  ghost predicate Inv(s: State) {
    && Accounted(s)
    && (s.committing ==> s.outstanding == 0)
    && (!s.committing && s.outstanding == 0 ==> s.lh == [])
    && (forall j, k :: 0 <= j < k < |s.lh| ==> s.lh[j] != s.lh[k])
    && (forall i :: 0 <= i < |s.procs| ==> ProcOk(s, s.procs[i]))
  }

  lemma InitInv(nprocs: nat)
    ensures Inv(Init(nprocs))
  {
    SumOutside(nprocs, ActiveOne);
    SumOutside(nprocs, CommitterOne);
    SumOutside(nprocs, UnusedOf);
  }

  lemma SumOutside(n: nat, w: Proc -> int)
    requires w(Outside) == 0
    ensures Sum(seq(n, _ => Outside), w) == 0
  {
    if n > 0 {
      assert seq(n, _ => Outside)[1..] == seq(n - 1, _ => Outside);
      SumOutside(n - 1, w);
    }
  }

  /** An operation is outstanding while some process is inside one, and then no commit runs. */
  lemma ActiveMeansOutstanding(s: State, p: nat)
    requires Inv(s) && p < |s.procs| && s.procs[p].Active?
    ensures s.outstanding > 0 && !s.committing
  {
    SumAtLeast(s.procs, p, ActiveOne);
  }

  lemma SumsUpdate(procs: seq<Proc>, p: nat, q: Proc)
    requires p < |procs|
    ensures Sum(procs[p := q], ActiveOne) == Sum(procs, ActiveOne) - ActiveOne(procs[p]) + ActiveOne(q)
    ensures Sum(procs[p := q], CommitterOne) == Sum(procs, CommitterOne) - CommitterOne(procs[p]) + CommitterOne(q)
    ensures Sum(procs[p := q], UnusedOf) == Sum(procs, UnusedOf) - UnusedOf(procs[p]) + UnusedOf(q)
    ensures Sum(Wake(procs[p := q]), ActiveOne) == Sum(procs[p := q], ActiveOne)
    ensures Sum(Wake(procs[p := q]), CommitterOne) == Sum(procs[p := q], CommitterOne)
    ensures Sum(Wake(procs[p := q]), UnusedOf) == Sum(procs[p := q], UnusedOf)
  {
    SumUpdate(procs, p, q, ActiveOne);
    SumUpdate(procs, p, q, CommitterOne);
    SumUpdate(procs, p, q, UnusedOf);
    SumWake(procs[p := q], ActiveOne);
    SumWake(procs[p := q], CommitterOne);
    SumWake(procs[p := q], UnusedOf);
  }

  lemma UnusedAtMost(procs: seq<Proc>)
    ensures 0 <= Sum(procs, ActiveOne) && Sum(procs, UnusedOf) <= MAXOPBLOCKS * Sum(procs, ActiveOne)
  {
    if procs != [] {
      UnusedAtMost(procs[1..]);
    }
  }

  lemma BeginKeepsInv(s: State, p: nat)
    requires Inv(s) && AtStep(s, Begin(p))
    ensures Inv(Apply(s, Begin(p)))
  {
    UnusedAtMost(s.procs);
    SumsUpdate(s.procs, p, if MustWait(s) then Asleep else Active({}, None));
  }

  lemma AppendKeepsInv(s: State, p: nat)
    requires Inv(s) && AtStep(s, Append(p))
    ensures Inv(Apply(s, Append(p)))
  {
    var q, t := s.procs[p], Apply(s, Append(p));
    var b := q.checked.value;
    ActiveMeansOutstanding(s, p);
    assert ProcOk(s, q);
    SumsUpdate(s.procs, p, Active(q.blocks + {b}, None));
    if b in q.blocks {
      assert q.blocks + {b} == q.blocks;
    } else {
      assert |q.blocks + {b}| == |q.blocks| + 1;
    }
    forall i | 0 <= i < |t.procs| ensures ProcOk(t, t.procs[i]) {
      assert ProcOk(s, s.procs[i]);
    }
  }

  lemma EndKeepsInv(s: State, p: nat)
    requires Inv(s) && AtStep(s, End(p))
    ensures Inv(Apply(s, End(p)))
  {
    var t := Apply(s, End(p));
    ActiveMeansOutstanding(s, p);
    assert ProcOk(s, s.procs[p]);
    SumsUpdate(s.procs, p, if s.outstanding == 1 then Committer(false) else Outside);
    forall i | 0 <= i < |t.procs| ensures ProcOk(t, t.procs[i]) {
      assert ProcOk(s, s.procs[i]);
    }
  }

  lemma CommitKeepsInv(s: State, p: nat, step: Step)
    requires Inv(s) && AtStep(s, step) && (step.Clear? || step.Finish?) && step.p == p
    ensures Inv(Apply(s, step))
  {
    var t := Apply(s, step);
    assert ProcOk(s, s.procs[p]);
    SumsUpdate(s.procs, p, if step.Clear? then Committer(true) else Outside);
    forall i | 0 <= i < |t.procs| ensures ProcOk(t, t.procs[i]) {
      assert ProcOk(s, s.procs[i]);
      if s.procs[i].Active? {
        ActiveMeansOutstanding(s, i);
      }
      if step.Finish? && i != p && s.procs[i].Committer? {
        OneCommitter(s.procs, i, p);
      }
    }
  }

  lemma OneCommitter(procs: seq<Proc>, i: nat, j: nat)
    requires i < |procs| && j < |procs| && i != j && procs[i].Committer? && procs[j].Committer?
    ensures Sum(procs, CommitterOne) >= 2
  {
    SumUpdate(procs, i, Outside, CommitterOne);
    SumAtLeast(procs[i := Outside], j, CommitterOne);
  }

  lemma StepKeepsInv(size: int, s: State, step: Step)
    requires Inv(s) && Enabled(size, s, step)
    ensures Inv(Apply(s, step))
  {
    match step
    case Begin(p) => BeginKeepsInv(s, p);
    case Check(p, b) => SumsUpdate(s.procs, p, s.procs[p].(checked := Some(b)));
    case Append(p) => AppendKeepsInv(s, p);
    case End(p) => EndKeepsInv(s, p);
    case Clear(p) => CommitKeepsInv(s, p, step);
    case Finish(p) => CommitKeepsInv(s, p, step);
  }

  /** The protocol's guarantees in every interleaving, for any number of processes:
      the log never needs more than LOGSIZE entries, all distinct, even after all
      reservations are used; commit runs alone; and whoever sleeps in begin_op still has to
      wait, for an operation or a commit that will wake it. */
  lemma {:induction false} GroupCommitIsSafe(size: int, s: State, steps: seq<Step>, t: State)
    requires Inv(s) && Run(size, s, steps, t)
    ensures Inv(t)
    decreases |steps|
  {
    if steps != [] {
      StepKeepsInv(size, s, steps[0]);
      GroupCommitIsSafe(size, Apply(s, steps[0]), steps[1..], t);
    }
  }

  /** The panics "log.committing" of end_op and "log_write outside of trans" cannot happen,
      while a commit runs begin_op only puts its caller to sleep, and nobody sleeps there once
      there is room. */
  lemma NoProtocolPanic(size: int, nprocs: nat, steps: seq<Step>, s: State, p: nat)
    requires Run(size, Init(nprocs), steps, s) && p < |s.procs|
    ensures s.procs[p].Active? ==> !s.committing && s.outstanding >= 1
    ensures s.committing && AtStep(s, Begin(p)) ==> Apply(s, Begin(p)) == s.(procs := s.procs[p := Asleep])
    ensures s.procs[p].Asleep? ==> MustWait(s) && (s.committing || exists q :: 0 <= q < |s.procs| && s.procs[q].Active?)
  {
    InitInv(nprocs);
    GroupCommitIsSafe(size, Init(nprocs), steps, s);
    if s.procs[p].Active? {
      ActiveMeansOutstanding(s, p);
    }
    assert ProcOk(s, s.procs[p]);
    if s.procs[p].Asleep? && !s.committing {
      SomeActive(s.procs);
    }
  }

  lemma SomeActive(procs: seq<Proc>)
    requires Sum(procs, ActiveOne) > 0
    ensures exists q :: 0 <= q < |procs| && procs[q].Active?
  {
    if !procs[0].Active? {
      SomeActive(procs[1..]);
      var q :| 0 <= q < |procs[1..]| && procs[1..][q].Active?;
      assert procs[q + 1].Active?;
    }
  }
}
