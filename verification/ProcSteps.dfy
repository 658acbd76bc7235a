/** What each step of proc.c does to the process table, entry by entry, and what follows for a
    process that waits for a CPU. */
module ProcSteps {
  import opened Basics
  import opened Proc
  import opened ProcTree
  import opened ProcRuns
  import T = ProcTable

  // ---------------------------------------------------------------- sched

  /** How far slot k is behind slot rr, going round: from 1 to n. */
  function Behind(n: nat, rr: nat, k: nat): nat
    requires rr < n && k < n
  {
    if k > rr then k - rr else k + n - rr
  }

  predicate AnyRunnable(procs: seq<Entry>) {
    exists k :: 0 <= k < |procs| && procs[k].state == Runnable
  }

  /** k is the first RUNNABLE process behind rr. */
  predicate First(procs: seq<Entry>, rr: nat, k: nat)
    requires rr < |procs|
  {
    && k < |procs| && procs[k].state == Runnable
    && forall j :: 0 <= j < |procs| && procs[j].state == Runnable ==> Behind(|procs|, rr, k) <= Behind(|procs|, rr, j)
  }

  /** From m to t, sched has run on CPU c: it idles if and only if nobody was RUNNABLE, else it runs
      the first one behind rrindex, which is rrindex now; nothing else has changed. */
  ghost predicate Switched(m: Sys, t: Sys, c: nat) {
    match m
    case Sys(procs, cpus, _, rr, _, _, _, _) =>
      && rr < |procs| && c < |cpus| == |t.cpus| && |t.procs| == |procs| && t == m.(procs := t.procs, cpus := t.cpus, rrindex := t.rrindex)
      && (forall d :: 0 <= d < |cpus| && d != c ==> t.cpus[d] == cpus[d])
      && (t.cpus[c] == -1 <==> !AnyRunnable(procs))
      && (t.cpus[c] == -1 ==> t.procs == procs && t.rrindex == rr)
      && (t.cpus[c] != -1 ==>
            && t.cpus[c] == t.rrindex && First(procs, rr, t.rrindex) && t.procs[t.rrindex] == procs[t.rrindex].(state := Running, chan := NoChan)
            && forall k :: 0 <= k < |procs| && k != t.rrindex ==> t.procs[k] == procs[k])
  }

  lemma LooksAt(n: nat, rr: nat, i: nat)
    requires rr < n && i < n
    ensures 0 <= (i + rr + 1) % n < n && Behind(n, rr, (i + rr + 1) % n) == i + 1
  {
    var k := (i + rr + 1) % n;
    T.TurnLooksAt(n, rr, k, i);
  }

  lemma BehindIsOnce(n: nat, rr: nat, j: nat, k: nat)
    requires rr < n && j < n && k < n && Behind(n, rr, j) == Behind(n, rr, k)
    ensures j == k
  {
  }

  lemma {:induction false} PicksFirst(procs: seq<Entry>, rr: nat, i: nat)
    requires rr < |procs| && i <= |procs|
    requires forall j :: 0 <= j < |procs| && Behind(|procs|, rr, j) <= i ==> procs[j].state != Runnable
    ensures PickFrom(procs, rr, i).None? <==> !AnyRunnable(procs)
    ensures PickFrom(procs, rr, i).Some? ==> First(procs, rr, PickFrom(procs, rr, i).value)
    decreases |procs| - i
  {
    if i < |procs| {
      var k := (i + rr + 1) % |procs|;
      LooksAt(|procs|, rr, i);
      forall j | 0 <= j < |procs| && Behind(|procs|, rr, j) == i + 1 ensures j == k {
        BehindIsOnce(|procs|, rr, j, k);
      }
      if procs[k].state != Runnable {
        PicksFirst(procs, rr, i + 1);
      }
    }
  }

  lemma SchedSwitches(m: Sys, c: nat)
    requires m.rrindex < |m.procs| && c < |m.cpus| && Sched(m, c).Some?
    ensures Switched(m, Sched(m, c).value, c)
  {
    PicksFirst(m.procs, m.rrindex, 0);
  }

  // ---------------------------------------------------------------- the steps that call sched

  function Cpu(step: Step): nat {
    match step
    case WakeupOther(_) => 0
    case Kill(_) => 0
    case _ => step.c
  }

  /** The caller has a child, none that has exited, and has not been killed. */
  predicate Waits(s: Sys, i: int) {
    && 0 <= i < |s.procs| && !s.procs[i].killed
    && (exists k :: 0 <= k < |s.procs| && s.procs[k].parent == i)
    && (forall k :: 0 <= k < |s.procs| && s.procs[k].parent == i ==> s.procs[k].state != Zombie)
  }

  predicate Switches(s: Sys, step: Step)
    requires Enabled(s, step)
  {
    match step
    case Exit(_) => true
    case Sleep(_, _) => true
    case Yield(_) => true
    case Reschedule(_) => true
    case Wait(c) => Waits(s, s.cpus[c])
    case _ => false
  }

  /** m is s as the caller leaves it for sched. */
  ghost predicate Leaves(s: Sys, step: Step, m: Sys)
    requires Enabled(s, step)
  {
    match step
    case Exit(c) =>
      var i := s.cpus[c];
      && m == s.(procs := m.procs, exited := s.exited + [s.procs[i].pid]) && |m.procs| == |s.procs|
      && m.procs[i] == s.procs[i].(state := Zombie) && forall k :: 0 <= k < |s.procs| && k != i ==> AfterExit(s, i, k, m.procs[k])
    case Wait(c) => var i := s.cpus[c]; m == s.(procs := s.procs[i := s.procs[i].(state := Sleeping, chan := OnProc(i))])
    case Sleep(c, id) => var i := s.cpus[c]; m == s.(procs := s.procs[i := s.procs[i].(state := Sleeping, chan := OnOther(id))])
    case Yield(c) => var i := s.cpus[c]; m == s.(procs := s.procs[i := s.procs[i].(state := Runnable)])
    case Reschedule(c) =>
      var i := s.cpus[c];
      if i == -1 then m == s else m == s.(procs := s.procs[i := s.procs[i].(state := Runnable)])
    case _ => false
  }

  lemma ExitSwitches(s: Sys, c: nat) returns (m: Sys)
    requires Inv(s) && s.rrindex < |s.procs| && Enabled(s, Exit(c)) && Apply(s, Exit(c)).Some?
    ensures Leaves(s, Exit(c), m) && Switched(m, Apply(s, Exit(c)).value, c)
  {
    var i := s.cpus[c];
    m := s.(procs := ExitTable(s, i), exited := s.exited + [s.procs[i].pid]);
    assert ParentOk(s, i) && s.procs[i].state == Running;
    ExitTableAt(s, i);
    SchedSwitches(m, c);
  }

  lemma WaitSwitches(s: Sys, c: nat) returns (m: Sys)
    requires Inv(s) && s.rrindex < |s.procs| && Enabled(s, Wait(c)) && Apply(s, Wait(c)).Some? && Waits(s, s.cpus[c])
    ensures Leaves(s, Wait(c), m) && Switched(m, Apply(s, Wait(c)).value, c)
  {
    var i := s.cpus[c];
    m := s.(procs := s.procs[i := s.procs[i].(state := Sleeping, chan := OnProc(i))]);
    assert FirstZombieChild(s.procs, i, 0).None? && HasChild(s.procs, i);
    SchedSwitches(m, c);
  }

  /** Every step that calls sched leaves the table as the caller should, and then switches. */
  lemma SwitchingStep(s: Sys, step: Step) returns (m: Sys)
    requires Inv(s) && s.rrindex < |s.procs| && Enabled(s, step) && Switches(s, step)
    ensures Leaves(s, step, m) && Apply(s, step).Some? && Switched(m, Apply(s, step).value, Cpu(step))
  {
    StepKeepsInv(s, step);
    m := s;
    match step
    case Exit(c) => m := ExitSwitches(s, c);
    case Wait(c) => m := WaitSwitches(s, c);
    case Sleep(c, id) =>
      m := s.(procs := s.procs[s.cpus[c] := s.procs[s.cpus[c]].(state := Sleeping, chan := OnOther(id))]);
      SchedSwitches(m, c);
    case Yield(c) =>
      m := SetState(s, s.cpus[c], Runnable);
      SchedSwitches(m, c);
    case Reschedule(c) =>
      if s.cpus[c] != -1 {
        m := SetState(s, s.cpus[c], Runnable);
      }
      SchedSwitches(m, c);
  }

  // ---------------------------------------------------------------- the other steps

  /** From s to t only entry k has changed, to e. */
  ghost predicate OnlyEntry(s: Sys, t: Sys, k: nat, e: Entry) {
    match s
    case Sys(procs, cpus, _, rr, init, _, exited, _) =>
      && k < |procs| == |t.procs| && t.procs[k] == e && (forall j :: 0 <= j < |procs| && j != k ==> t.procs[j] == procs[j])
      && t.cpus == cpus && t.rrindex == rr && t.init == init && t.exited == exited
  }

  /** fork's allocproc fails if and only if no slot is unused; else the first one gets the next
      pid. */
  lemma ForkAllocStep(s: Sys, c: nat)
    requires Enabled(s, ForkAlloc(c))
    ensures Apply(s, ForkAlloc(c)).Some?
    ensures var t, i := Apply(s, ForkAlloc(c)).value, s.cpus[c];
      if forall k :: 0 <= k < |s.procs| ==> s.procs[k].state != Unused then t == s
      else
        && |t.forks| == |s.forks| && t.forks[i].Allocated? && t == s.(procs := t.procs, nextpid := s.nextpid + 1, forks := s.forks[i := t.forks[i]])
        && var k := t.forks[i].child;
          && k < |s.procs| && s.procs[k].state == Unused && (forall j :: 0 <= j < k ==> s.procs[j].state != Unused)
          && OnlyEntry(s, t, k, s.procs[k].(state := Embryo, pid := s.nextpid))
  {
    FirstUnusedIsFirst(s.procs, 0);
  }

  lemma {:induction false} FirstUnusedIsFirst(procs: seq<Entry>, k: nat)
    requires k <= |procs|
    ensures FirstUnused(procs, k).Some? ==> forall j :: k <= j < FirstUnused(procs, k).value ==> procs[j].state != Unused
    decreases |procs| - k
  {
    if k < |procs| && procs[k].state != Unused {
      FirstUnusedIsFirst(procs, k + 1);
    }
  }

  /** The rest of fork: giving the slot back, setting the parent, making the child RUNNABLE. */
  lemma ForkSteps(s: Sys, c: nat, step: Step)
    requires Enabled(s, step) && (step == ForkFail(c) || step == ForkParent(c) || step == ForkDone(c))
    ensures Apply(s, step).Some?
    ensures var t, i := Apply(s, step).value, s.cpus[c];
      && var k := s.forks[i].child;
        && t == s.(procs := t.procs, forks := s.forks[i := if step.ForkParent? then Parented(k) else NoFork])
        && OnlyEntry(s, t, k, if step.ForkFail? then s.procs[k].(state := Unused)
                              else if step.ForkParent? then s.procs[k].(parent := i) else s.procs[k].(state := Runnable))
  {
  }

  /** wait without sleeping: it reaps the first child that has exited, if there is one; else it
      returns with nothing changed, having no child or having been killed. */
  lemma WaitReturns(s: Sys, c: nat)
    requires Enabled(s, Wait(c)) && !Waits(s, s.cpus[c])
    ensures Apply(s, Wait(c)).Some?
    ensures var t, i := Apply(s, Wait(c)).value, s.cpus[c];
      if forall k :: 0 <= k < |s.procs| && s.procs[k].parent == i ==> s.procs[k].state != Zombie then
        t == s && (s.procs[i].killed || forall k :: 0 <= k < |s.procs| ==> s.procs[k].parent != i)
      else
        exists z :: 0 <= z < |s.procs| && s.procs[z].parent == i && s.procs[z].state == Zombie
          && (forall k :: 0 <= k < z && s.procs[k].parent == i ==> s.procs[k].state != Zombie)
          && t == s.(procs := t.procs, reaped := s.reaped + [s.procs[z].pid])
          && OnlyEntry(s, t, z, Entry(Unused, 0, -1, s.procs[z].chan, false))
  {
    var i := s.cpus[c];
    FirstZombieIsFirst(s.procs, i, 0);
    if FirstZombieChild(s.procs, i, 0).Some? {
      var z := FirstZombieChild(s.procs, i, 0).value;
      assert OnlyEntry(s, Apply(s, Wait(c)).value, z, Entry(Unused, 0, -1, s.procs[z].chan, false));
    }
  }

  lemma {:induction false} FirstZombieIsFirst(procs: seq<Entry>, i: int, k: nat)
    requires k <= |procs|
    ensures FirstZombieChild(procs, i, k).Some? ==>
      forall j :: k <= j < FirstZombieChild(procs, i, k).value && procs[j].parent == i ==> procs[j].state != Zombie
    decreases |procs| - k
  {
    if k < |procs| && !(procs[k].parent == i && procs[k].state == Zombie) {
      FirstZombieIsFirst(procs, i, k + 1);
    }
  }

  /** A wakeup makes every sleeper on the channel RUNNABLE and changes nothing else. */
  lemma WakeupStep(s: Sys, id: int)
    ensures Apply(s, WakeupOther(id)).Some?
    ensures var t := Apply(s, WakeupOther(id)).value;
      && t == s.(procs := t.procs) && |t.procs| == |s.procs|
      && (forall k :: 0 <= k < |s.procs| && s.procs[k].state == Sleeping && s.procs[k].chan == OnOther(id) ==> t.procs[k] == s.procs[k].(state := Runnable))
      && (forall k :: 0 <= k < |s.procs| && !(s.procs[k].state == Sleeping && s.procs[k].chan == OnOther(id)) ==> t.procs[k] == s.procs[k])
  {
  }

  /** kill marks the first process with the pid, and wakes it if it sleeps. */
  lemma KillStep(s: Sys, pid: int)
    ensures Apply(s, Kill(pid)).Some?
    ensures var t := Apply(s, Kill(pid)).value;
      if forall k :: 0 <= k < |s.procs| ==> s.procs[k].pid != pid then t == s
      else
        exists k :: 0 <= k < |s.procs| && s.procs[k].pid == pid && (forall j :: 0 <= j < k ==> s.procs[j].pid != pid)
          && t == s.(procs := t.procs)
          && OnlyEntry(s, t, k, s.procs[k].(killed := true, state := if s.procs[k].state == Sleeping then Runnable else s.procs[k].state))
  {
    FirstPidIsFirst(s.procs, pid, 0);
    if FirstPid(s.procs, pid, 0).Some? {
      var k := FirstPid(s.procs, pid, 0).value;
      assert OnlyEntry(s, Apply(s, Kill(pid)).value, k, s.procs[k].(killed := true, state := if s.procs[k].state == Sleeping then Runnable else s.procs[k].state));
    }
  }

  lemma {:induction false} FirstPidIsFirst(procs: seq<Entry>, pid: int, k: nat)
    requires k <= |procs|
    ensures FirstPid(procs, pid, k).Some? ==> forall j :: k <= j < FirstPid(procs, pid, k).value ==> procs[j].pid != pid
    ensures FirstPid(procs, pid, k).None? ==> forall j :: k <= j < |procs| ==> procs[j].pid != pid
    decreases |procs| - k
  {
    if k < |procs| && procs[k].pid != pid {
      FirstPidIsFirst(procs, pid, k + 1);
    }
  }
}
