/** Nobody waits for a CPU for ever: in every run a RUNNABLE process is switched to within NPROC calls
    of sched. */
module ProcFair {
  import opened Basics
  import opened Proc
  import opened ProcTree
  import opened ProcRuns
  import opened ProcSteps

  ghost predicate Good(s: Sys) {
    match s
    case Sys(procs, _, _, rr, _, _, _, _) => Inv(s) && rr < |procs|
  }

  predicate Ready(s: Sys, k: nat) {
    k < |s.procs| && s.procs[k].state == Runnable
  }

  /** The step puts process k on a CPU. */
  ghost predicate PutsOn(s: Sys, step: Step, t: Sys, k: nat) {
    match s
    case Sys(_, _, _, _, _, _, _, _) =>
      && Ready(s, k) && Enabled(s, step) && Switches(s, step) && Apply(s, step) == Some(t)
      && Cpu(step) < |t.cpus| && t.cpus[Cpu(step)] == k && k < |t.procs| && t.procs[k].state == Running
  }

  lemma QuietKeepsReady(s: Sys, step: Step, k: nat)
    requires Good(s) && Enabled(s, step) && !Switches(s, step) && Ready(s, k)
    ensures Apply(s, step).Some? && Ready(Apply(s, step).value, k)
    ensures Apply(s, step).value.rrindex == s.rrindex && |Apply(s, step).value.procs| == |s.procs|
  {
    match step
    case ForkAlloc(c) => ForkAllocStep(s, c);
    case ForkFail(c) => assert ForkOk(s, s.cpus[c]);
    case ForkParent(c) => assert ForkOk(s, s.cpus[c]);
    case ForkDone(c) => assert ForkOk(s, s.cpus[c]);
    case Wait(c) => WaitReturns(s, c);
    case WakeupOther(id) => WakeupStep(s, id);
    case Kill(pid) => KillStep(s, pid);
  }

  lemma LeavesReady(s: Sys, step: Step, m: Sys, k: nat)
    requires Good(s) && Enabled(s, step) && Leaves(s, step, m) && Ready(s, k)
    ensures Ready(m, k) && m.rrindex == s.rrindex && |m.procs| == |s.procs|
  {
    var c := Cpu(step);
    assert s.cpus[c] != -1 ==> s.procs[s.cpus[c]].state == Running;
    if step.Exit? {
      assert AfterExit(s, s.cpus[c], k, m.procs[k]);
    }
  }

  /** Skipped by sched, the process is strictly less far behind rrindex. */
  lemma SwitchGetsCloser(s: Sys, step: Step, k: nat)
    requires Good(s) && Enabled(s, step) && Switches(s, step) && Ready(s, k)
    ensures Apply(s, step).Some?
    ensures var t := Apply(s, step).value;
      && |t.procs| == |s.procs| && t.rrindex < |t.procs|
      && (PutsOn(s, step, t, k) || (Ready(t, k) && Behind(|s.procs|, t.rrindex, k) < Behind(|s.procs|, s.rrindex, k)))
  {
    var m := SwitchingStep(s, step);
    LeavesReady(s, step, m, k);
    var t := Apply(s, step).value;
    assert AnyRunnable(m.procs);
    if t.rrindex != k {
      assert Behind(|s.procs|, s.rrindex, t.rrindex) <= Behind(|s.procs|, s.rrindex, k);
    }
  }

  // ---------------------------------------------------------------- runs

  /** How many steps of the run call sched. */
  ghost function Calls(s: Sys, steps: seq<Step>): nat
    decreases |steps|
  {
    if steps == [] || !Enabled(s, steps[0]) || Apply(s, steps[0]).None? then 0
    else (if Switches(s, steps[0]) then 1 else 0) + Calls(Apply(s, steps[0]).value, steps[1..])
  }

  /** The state after the first j steps. */
  ghost function After(s: Sys, steps: seq<Step>, j: nat): Sys
    requires j <= |steps|
    decreases j
  {
    if j == 0 || !Enabled(s, steps[0]) || Apply(s, steps[0]).None? then s else After(Apply(s, steps[0]).value, steps[1..], j - 1)
  }

  lemma {:induction false} WaitsAtMost(s: Sys, steps: seq<Step>, t: Sys, k: nat) returns (j: nat)
    requires Good(s) && Run(s, steps, t) && Ready(s, k) && Calls(s, steps) >= Behind(|s.procs|, s.rrindex, k)
    ensures j < |steps| && PutsOn(After(s, steps, j), steps[j], After(s, steps, j + 1), k)
    decreases |steps|
  {
    var step := steps[0];
    StepKeepsInv(s, step);
    var u := Apply(s, step).value;
    if Switches(s, step) {
      SwitchGetsCloser(s, step, k);
      if PutsOn(s, step, u, k) {
        assert After(s, steps, 0) == s && After(s, steps, 1) == After(u, steps[1..], 0) == u;
        return 0;
      }
    } else {
      QuietKeepsReady(s, step, k);
    }
    j := WaitsAtMost(u, steps[1..], t, k);
    assert After(s, steps, j + 1) == After(u, steps[1..], j) && After(s, steps, j + 2) == After(u, steps[1..], j + 1);
    j := j + 1;
  }

  /** In every run with NPROC calls of sched, on whatever CPUs and for whatever reason, a process that
      is RUNNABLE at its start is put on a CPU by one of them. */
  lemma BoundedWaiting(s: Sys, steps: seq<Step>, t: Sys, k: nat) returns (j: nat)
    requires Inv(s) && s.rrindex < |s.procs| && Run(s, steps, t) && Ready(s, k) && Calls(s, steps) >= |s.procs|
    ensures j < |steps| && PutsOn(After(s, steps, j), steps[j], After(s, steps, j + 1), k)
  {
    j := WaitsAtMost(s, steps, t, k);
  }

  /** rrindex stays inside the table. */
  lemma {:induction false} RunKeepsGood(s: Sys, steps: seq<Step>, t: Sys)
    requires Good(s) && Run(s, steps, t)
    ensures Good(t)
    decreases |steps|
  {
    if steps != [] {
      StepKeepsInv(s, steps[0]);
      StepKeepsIndex(s, steps[0]);
      RunKeepsGood(Apply(s, steps[0]).value, steps[1..], t);
    }
  }

  lemma StepKeepsIndex(s: Sys, step: Step)
    requires Good(s) && Enabled(s, step) && Apply(s, step).Some?
    ensures Apply(s, step).value.rrindex < |Apply(s, step).value.procs|
  {
    if Switches(s, step) {
      var m := SwitchingStep(s, step);
    } else {
      match step
      case ForkAlloc(c) => ForkAllocStep(s, c);
      case Wait(c) => WaitReturns(s, c);
      case _ =>
    }
  }

  /** So it is from boot on: whenever a process is RUNNABLE, within NPROC further calls of sched it
      is put on a CPU. */
  lemma NobodyStarves(nproc: nat, ncpu: nat, first: seq<Step>, s: Sys, steps: seq<Step>, t: Sys, k: nat) returns (j: nat)
    requires nproc > 0 && Run(Boot(nproc, ncpu), first, s) && Run(s, steps, t) && Ready(s, k) && Calls(s, steps) >= |s.procs|
    ensures j < |steps| && PutsOn(After(s, steps, j), steps[j], After(s, steps, j + 1), k)
  {
    BootInv(nproc, ncpu);
    RunKeepsGood(Boot(nproc, ncpu), first, s);
    j := BoundedWaiting(s, steps, t, k);
  }
}
