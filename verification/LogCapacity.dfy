/** When log.c's writes stay inside the log. begin_op reserves against LOGSIZE entries,
    log_write also compares with log.size - 1, but that comparison happens before the
    lock is taken: two operations can pass it together and then both append. */
module LogCapacity {
  import opened Basics
  import opened GroupCommit

  /** In every run, every commit finds its list empty or writes log blocks 1 to n < size. */
  ghost predicate StaysInRegion(size: int) {
    forall nprocs: nat, steps: seq<Step>, s: State :: Run(size, Init(nprocs), steps, s) ==> |s.lh| == 0 || |s.lh| < size
  }

  lemma RunAppend(size: int, s: State, xs: seq<Step>, t: State, ys: seq<Step>, u: State)
    requires Run(size, s, xs, t) && Run(size, t, ys, u)
    ensures Run(size, s, xs + ys, u)
    decreases |xs|
  {
    if xs == [] {
      assert xs + ys == ys;
    } else {
      RunAppend(size, Apply(s, xs[0]), xs[1..], t, ys, u);
      assert (xs + ys)[1..] == xs[1..] + ys;
    }
  }

  lemma RunTwo(size: int, s: State, a: Step, b: Step)
    requires Enabled(size, s, a) && Enabled(size, Apply(s, a), b)
    ensures Run(size, s, [a, b], Apply(Apply(s, a), b))
  {
    var t := Apply(s, a);
    assert Run(size, Apply(t, b), [], Apply(t, b));
    assert [b][1..] == [];
    assert Run(size, t, [b], Apply(t, b));
    assert [a, b][1..] == [b];
  }

  /** Three operations have logged a, b and c blocks, numbered from 0 on. */
  predicate Filled(s: State, a: nat, b: nat, c: nat) {
    match s
    case State(lh, _, _, procs) =>
      && |lh| == a + b + c && (forall x :: x in lh ==> x < |lh|) && |procs| == 3
      && Logged(procs[0], a, |lh|) && Logged(procs[1], b, |lh|) && Logged(procs[2], c, |lh|)
  }

  predicate Logged(q: Proc, k: nat, n: nat) {
    match q
    case Active(blocks, checked) => checked == None && |blocks| == k && forall x :: x in blocks ==> x < n
    case _ => false
  }

  /** log_write of a new block by process p. */
  lemma LogsOne(size: int, s: State, p: nat, k: nat)
    requires p < |s.procs| && Logged(s.procs[p], k, |s.lh|) && (forall x :: x in s.lh ==> x < |s.lh|)
    requires |s.lh| < Capacity(size) && k < MAXOPBLOCKS
    ensures var b := |s.lh|; Enabled(size, s, Check(p, b)) && Enabled(size, Apply(s, Check(p, b)), Append(p))
    ensures var b := |s.lh|; Apply(Apply(s, Check(p, b)), Append(p)) == s.(lh := s.lh + [b], procs := s.procs[p := Active(s.procs[p].blocks + {b}, None)])
    ensures Logged(Active(s.procs[p].blocks + {|s.lh|}, None), k + 1, |s.lh| + 1)
  {
    assert |s.lh| !in s.procs[p].blocks;
  }

  lemma OneMoreFilled(size: int, before: seq<Step>, s: State, p: nat, k: nat) returns (steps: seq<Step>, t: State)
    requires Run(size, Init(3), before, s) && |s.procs| == 3 && p < 3
    requires Logged(s.procs[p], k, |s.lh|) && (forall x :: x in s.lh ==> x < |s.lh|) && |s.lh| < Capacity(size) && k < MAXOPBLOCKS
    ensures Run(size, Init(3), steps, t) && t == s.(lh := s.lh + [|s.lh|], procs := s.procs[p := Active(s.procs[p].blocks + {|s.lh|}, None)])
    ensures Logged(t.procs[p], k + 1, |s.lh| + 1)
  {
    var b := |s.lh|;
    LogsOne(size, s, p, k);
    t := Apply(Apply(s, Check(p, b)), Append(p));
    RunTwo(size, s, Check(p, b), Append(p));
    RunAppend(size, Init(3), before, s, [Check(p, b), Append(p)], t);
    steps := before + [Check(p, b), Append(p)];
  }

  lemma NoneFilled(size: int) returns (steps: seq<Step>, s: State)
    ensures Run(size, Init(3), steps, s) && Filled(s, 0, 0, 0)
  {
    steps := [Begin(0), Begin(1), Begin(2)];
    var s1 := Apply(Init(3), Begin(0));
    s := Apply(Apply(s1, Begin(1)), Begin(2));
    RunTwo(size, s1, Begin(1), Begin(2));
    assert steps[1..] == [Begin(1), Begin(2)];
  }

  lemma {:induction false} FillRun(size: int, a: nat, b: nat, c: nat) returns (steps: seq<Step>, s: State)
    requires a <= MAXOPBLOCKS && b <= MAXOPBLOCKS && c <= MAXOPBLOCKS && (a + b + c == 0 || a + b + c <= Capacity(size))
    ensures Run(size, Init(3), steps, s) && Filled(s, a, b, c)
    decreases a + b + c
  {
    if a > 0 {
      steps, s := FillRun(size, a - 1, b, c);
      steps, s := OneMoreFilled(size, steps, s, 0, a - 1);
    } else if b > 0 {
      steps, s := FillRun(size, a, b - 1, c);
      steps, s := OneMoreFilled(size, steps, s, 1, b - 1);
    } else if c > 0 {
      steps, s := FillRun(size, a, b, c - 1);
      steps, s := OneMoreFilled(size, steps, s, 2, c - 1);
    } else {
      steps, s := NoneFilled(size);
    }
  }

  lemma BothCheck(size: int, s: State, a: nat, b: nat, c: nat)
    requires Filled(s, a, b, c) && a < MAXOPBLOCKS && b < MAXOPBLOCKS && |s.lh| < Capacity(size)
    ensures Enabled(size, s, Check(0, |s.lh|)) && Enabled(size, Apply(s, Check(0, |s.lh|)), Check(1, |s.lh| + 1))
  {
    OneMore(s.procs[0].blocks, |s.lh|);
    OneMore(s.procs[1].blocks, |s.lh| + 1);
  }

  lemma BothAppend(s: State, n: nat)
    requires |s.procs| == 3 && s.procs[0].Active? && s.procs[1].Active?
    requires s.procs[0].checked == Some(n) && s.procs[1].checked == Some(n + 1)
    requires forall x :: x in s.lh ==> x < n
    ensures AtStep(s, Append(0)) && AtStep(Apply(s, Append(0)), Append(1))
    ensures |Apply(Apply(s, Append(0)), Append(1)).lh| == |s.lh| + 2
  {
  }

  lemma RunFour(size: int, s: State, a: Step, b: Step, c: Step, d: Step)
    requires Enabled(size, s, a) && Enabled(size, Apply(s, a), b)
    requires var t := Apply(Apply(s, a), b); Enabled(size, t, c) && Enabled(size, Apply(t, c), d)
    ensures Run(size, s, [a, b] + [c, d], Apply(Apply(Apply(Apply(s, a), b), c), d))
  {
    var t := Apply(Apply(s, a), b);
    RunTwo(size, s, a, b);
    RunTwo(size, t, c, d);
    RunAppend(size, s, [a, b], t, [c, d], Apply(Apply(t, c), d));
  }

  lemma RaceFrom(size: int, f: State, a: nat, b: nat, c: nat) returns (race: seq<Step>, s: State)
    requires Filled(f, a, b, c) && a < MAXOPBLOCKS && b < MAXOPBLOCKS && |f.lh| < Capacity(size)
    ensures Run(size, f, race, s) && |s.lh| == |f.lh| + 2
  {
    var n := |f.lh|;
    BothCheck(size, f, a, b, c);
    var t := Apply(Apply(f, Check(0, n)), Check(1, n + 1));
    BothAppend(t, n);
    s := Apply(Apply(t, Append(0)), Append(1));
    race := [Check(0, n), Check(1, n + 1)] + [Append(0), Append(1)];
    RunFour(size, f, Check(0, n), Check(1, n + 1), Append(0), Append(1));
  }

  /** Two operations check at size - 2 entries and both append: the list outgrows the log,
      and write_log's last block is the first one behind the region. */
  lemma RaceOverflows(size: int) returns (steps: seq<Step>, s: State)
    requires 2 <= size <= LOGSIZE
    ensures Run(size, Init(3), steps, s) && |s.lh| == size
  {
    var n := size - 2;
    var a, b := if n < 9 then n else 9, if n < 9 then 0 else if n < 18 then n - 9 else 9;
    var fill, f := FillRun(size, a, b, n - a - b);
    var race;
    race, s := RaceFrom(size, f, a, b, n - a - b);
    steps := fill + race;
    RunAppend(size, Init(3), fill, f, race, s);
  }

  /** A log with no room for a data block never gets an entry. */
  lemma {:induction false} NoRoomNoEntries(size: int, s: State, steps: seq<Step>, t: State)
    requires size <= 1 && s.lh == [] && (forall i :: 0 <= i < |s.procs| ==> !(s.procs[i].Active? && s.procs[i].checked.Some?))
    requires Run(size, s, steps, t)
    ensures t.lh == []
    decreases |steps|
  {
    if steps != [] {
      NoRoomNoEntries(size, Apply(s, steps[0]), steps[1..], t);
    }
  }

  /** The exact condition on the log size: nlog = LOGSIZE, the value mkfs writes, fails it. */
  lemma StaysInRegionIff(size: int)
    ensures StaysInRegion(size) <==> size <= 1 || size > LOGSIZE
  {
    if 2 <= size <= LOGSIZE {
      var steps, s := RaceOverflows(size);
    } else {
      forall nprocs: nat, steps: seq<Step>, s: State | Run(size, Init(nprocs), steps, s)
        ensures |s.lh| == 0 || |s.lh| < size
      {
        if size <= 1 {
          NoRoomNoEntries(size, Init(nprocs), steps, s);
        } else {
          InitInv(nprocs);
          GroupCommitIsSafe(size, Init(nprocs), steps, s);
          UnusedNonNegative(s);
        }
      }
    }
  }

  lemma UnusedNonNegative(s: State)
    requires Inv(s)
    ensures Sum(s.procs, UnusedOf) >= 0 && |s.lh| <= LOGSIZE
  {
    forall j | 0 <= j < |s.procs| ensures UnusedOf(s.procs[j]) >= 0 {
      assert ProcOk(s, s.procs[j]);
    }
    SumNonNegative(s.procs, UnusedOf);
  }

  // ---------------------------------------------------------------- "too big a transaction"

  /** log_write panics from this many entries on. */
  function Capacity(size: int): int {
    if size - 1 < LOGSIZE then size - 1 else LOGSIZE
  }

  /** Some run brings an operation that has logged k blocks and keeps to MAXOPBLOCKS to the
      panic of log_write, on a block it has logged before or on one it has not. */
  ghost predicate CanPanic(size: int, k: nat, again: bool) {
    exists nprocs: nat, steps: seq<Step>, s: State, p: nat, b: int :: Panics(size, nprocs, steps, s, p, b, k, again)
  }

  ghost predicate Panics(size: int, nprocs: nat, steps: seq<Step>, s: State, p: nat, b: int, k: nat, again: bool) {
    && Run(size, Init(nprocs), steps, s) && AtStep(s, Check(p, b)) && TooBig(size, s)
    && |s.procs[p].blocks| == k && |s.procs[p].blocks + {b}| <= MAXOPBLOCKS && (again <==> b in s.procs[p].blocks)
  }

  /** No operation gets beyond the capacity on its own. */
  predicate WithinCapacity(size: int, q: Proc) {
    q.Active? ==> |q.blocks| <= (if Capacity(size) < 0 then 0 else Capacity(size)) && (q.checked.Some? ==> |q.blocks| < Capacity(size))
  }

  lemma SomeOf<T>(xs: set<T>) returns (x: T)
    requires |xs| > 0
    ensures x in xs
  {
    x :| x in xs;
  }

  lemma {:induction false} DistinctAtMost(xs: set<int>, ys: seq<int>)
    requires forall x :: x in xs ==> x in ys
    ensures |xs| <= |ys|
    decreases |ys|
  {
    if |ys| > 0 {
      var rest := xs - {ys[0]};
      DistinctAtMost(rest, ys[1..]);
      assert xs <= rest + {ys[0]};
    } else if |xs| > 0 {
      var x := SomeOf(xs);
    }
  }

  lemma OneMore(xs: set<int>, x: int)
    ensures |xs + {x}| <= |xs| + 1
  {
    if x in xs {
      assert xs + {x} == xs;
    }
  }

  lemma StepWithinCapacity(size: int, s: State, step: Step)
    requires Inv(s) && Enabled(size, s, step) && forall i :: 0 <= i < |s.procs| ==> WithinCapacity(size, s.procs[i])
    ensures forall i :: 0 <= i < |Apply(s, step).procs| ==> WithinCapacity(size, Apply(s, step).procs[i])
  {
    if step.Check? {
      assert ProcOk(s, s.procs[step.p]);
      DistinctAtMost(s.procs[step.p].blocks, s.lh);
    }
    if step.Append? {
      var q := s.procs[step.p];
      OneMore(q.blocks, q.checked.value);
    }
    forall i | 0 <= i < |Apply(s, step).procs| ensures WithinCapacity(size, Apply(s, step).procs[i]) {
      assert WithinCapacity(size, s.procs[i]);
    }
  }

  lemma {:induction false} RunWithinCapacity(size: int, s: State, steps: seq<Step>, t: State)
    requires Inv(s) && Run(size, s, steps, t) && forall i :: 0 <= i < |s.procs| ==> WithinCapacity(size, s.procs[i])
    ensures forall i :: 0 <= i < |t.procs| ==> WithinCapacity(size, t.procs[i])
    decreases |steps|
  {
    if steps != [] {
      StepKeepsInv(size, s, steps[0]);
      StepWithinCapacity(size, s, steps[0]);
      RunWithinCapacity(size, Apply(s, steps[0]), steps[1..], t);
    }
  }

  /** An operation at the panic: its own unused reservation is kept free by everybody else. */
  lemma PanicNeeds(size: int, nprocs: nat, steps: seq<Step>, s: State, p: nat, b: int, k: nat, again: bool)
    requires Panics(size, nprocs, steps, s, p, b, k, again)
    ensures Capacity(size) - (LOGSIZE - MAXOPBLOCKS) <= k && (k == 0 || k <= Capacity(size))
    ensures if again then k > 0 else k < MAXOPBLOCKS
  {
    InitInv(nprocs);
    GroupCommitIsSafe(size, Init(nprocs), steps, s);
    RunWithinCapacity(size, Init(nprocs), steps, s);
    assert WithinCapacity(size, s.procs[p]);
    forall j | 0 <= j < |s.procs| ensures UnusedOf(s.procs[j]) >= 0 {
      assert ProcOk(s, s.procs[j]);
    }
    SumAtLeast(s.procs, p, UnusedOf);
  }

  lemma PanicRun(size: int, k: nat, again: bool)
    requires Capacity(size) - (LOGSIZE - MAXOPBLOCKS) <= k <= MAXOPBLOCKS && (k == 0 || k <= Capacity(size))
    requires if again then k > 0 else k < MAXOPBLOCKS
    ensures CanPanic(size, k, again)
  {
    var n: nat := if Capacity(size) < 0 then 0 else Capacity(size);
    var second: nat := if n - k < MAXOPBLOCKS then n - k else MAXOPBLOCKS;
    var steps, s := FillRun(size, k, second, n - k - second);
    OneMore(s.procs[0].blocks, n);
    var b: int := n;
    if again {
      b := SomeOf(s.procs[0].blocks);
      assert s.procs[0].blocks + {b} == s.procs[0].blocks;
    }
    assert Panics(size, 3, steps, s, 0, b, k, again);
  }

  /** Exactly when log_write can panic under an operation that logs at most MAXOPBLOCKS blocks,
      by the log size and the number k of blocks it has logged. Below a log larger than LOGSIZE
      it is k = MAXOPBLOCKS, so only a block that would be absorbed; with the size mkfs writes
      it is also a tenth block. */
  lemma PanicIff(size: int, k: nat, again: bool)
    requires k <= MAXOPBLOCKS
    ensures CanPanic(size, k, again) <==>
      && Capacity(size) - (LOGSIZE - MAXOPBLOCKS) <= k && (k == 0 || k <= Capacity(size))
      && if again then k > 0 else k < MAXOPBLOCKS
    ensures size > LOGSIZE ==> (CanPanic(size, k, again) <==> k == MAXOPBLOCKS && again)
    ensures size == LOGSIZE ==> (CanPanic(size, k, again) <==> (k == MAXOPBLOCKS && again) || k == MAXOPBLOCKS - 1)
  {
    if CanPanic(size, k, again) {
      var nprocs: nat, steps: seq<Step>, s: State, p: nat, b: int :| Panics(size, nprocs, steps, s, p, b, k, again);
      PanicNeeds(size, nprocs, steps, s, p, b, k, again);
    } else if Capacity(size) - (LOGSIZE - MAXOPBLOCKS) <= k && (k == 0 || k <= Capacity(size)) && (if again then k > 0 else k < MAXOPBLOCKS) {
      PanicRun(size, k, again);
    }
  }
}
