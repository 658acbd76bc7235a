/** Every step of proc.c keeps the process-table invariant, so every run does. */
module ProcRuns {
  import opened Basics
  import opened Proc
  import opened ProcTree

  lemma NoParentThere(s: Sys, k: nat)
    requires Core(s) && k < |s.procs| && !Waitable(s.procs[k].state)
    ensures !HasChild(s.procs, k)
  {
    forall j | 0 <= j < |s.procs| ensures s.procs[j].parent != k {
      assert ParentOk(s, j);
    }
  }

  /** A slot that nobody has as parent changes, between states that are neither waitable nor
      zombie, and keeps its parent pointer or gets a new one. */
  lemma SlotKeepsTable(s: Sys, t: Sys, k: nat)
    requires Core(s) && Shape(t) && t.init == s.init && t.nextpid >= s.nextpid
    requires k < |s.procs| == |t.procs| && t.procs == s.procs[k := t.procs[k]]
    requires !Alive(s.procs[k].state) && !Alive(t.procs[k].state)
    requires forall j :: 0 <= j < |s.procs| && s.procs[j].state != Runnable && s.procs[j].state != Running ==> t.forks[j] == s.forks[j]
    requires ParentOk(t, k) && LocalOk(t, k)
    requires t.procs[k].parent == s.procs[k].parent || s.procs[k].parent == -1
    ensures Table(t)
  {
    NoParentThere(s, k);
    forall j | 0 <= j < |t.procs| ensures ParentOk(t, j) && LocalOk(t, j) && WaitOk(t, j) {
      assert ParentOk(s, j) && LocalOk(s, j) && WaitOk(s, j);
      if j != k {
        assert s.procs[j].parent != k;
        if HasChild(s.procs, j) {
          var m :| 0 <= m < |s.procs| && s.procs[m].parent == j;
          assert t.procs[m].parent == j;
        }
        if HasZombieChild(t.procs, j) {
          var m :| 0 <= m < |t.procs| && t.procs[m].parent == j && t.procs[m].state == Zombie;
          assert s.procs[m].parent == j && s.procs[m].state == Zombie;
        }
      }
    }
  }

  lemma LedgerSame(s: Sys, t: Sys)
    requires Ledger(s) && t.exited == s.exited && t.reaped == s.reaped && t.nextpid >= s.nextpid && |t.procs| == |s.procs|
    requires forall k :: 0 <= k < |s.procs| ==> (t.procs[k].state == Zombie <==> s.procs[k].state == Zombie)
    requires forall k :: 0 <= k < |s.procs| && s.procs[k].state == Zombie ==> t.procs[k].pid == s.procs[k].pid
    requires forall k :: 0 <= k < |s.procs| && t.procs[k].state != Zombie && t.procs[k].state != Unused ==> t.procs[k].pid !in s.exited
    ensures Ledger(t)
  {
    forall p | p in t.exited && p !in t.reaped
      ensures exists z :: 0 <= z < |t.procs| && t.procs[z].state == Zombie && t.procs[z].pid == p
    {
      var z :| 0 <= z < |s.procs| && s.procs[z].state == Zombie && s.procs[z].pid == p;
      assert t.procs[z].state == Zombie && t.procs[z].pid == p;
    }
  }

  /** Process i's fork moves on and only slot k changes. */
  lemma ForksUpdate(s: Sys, t: Sys, i: nat, k: nat)
    requires Core(s) && i < |s.procs| && k < |s.procs| && i != k && s.forks[k].NoFork?
    requires |t.procs| == |s.procs| && |t.forks| == |s.forks|
    requires t.procs == s.procs[k := t.procs[k]] && t.forks == s.forks[i := t.forks[i]]
    requires ForkOk(t, i) && (t.forks[i].NoFork? || t.forks[i].child == k)
    requires forall j :: 0 <= j < |s.forks| && j != i && !s.forks[j].NoFork? ==> s.forks[j].child != k
    ensures Forks(t)
  {
    forall j | 0 <= j < |t.forks| ensures ForkOk(t, j) {
      assert ForkOk(s, j);
    }
  }

  lemma PidsUpdate(s: Sys, t: Sys, k: nat)
    requires PidsDiffer(s) && k < |s.procs| == |t.procs| && t.procs == s.procs[k := t.procs[k]]
    requires t.procs[k].state != Unused ==>
      (t.procs[k].pid == s.procs[k].pid && s.procs[k].state != Unused)
      || forall j :: 0 <= j < |s.procs| && s.procs[j].state != Unused ==> s.procs[j].pid != t.procs[k].pid
    ensures PidsDiffer(t)
  {
  }

  /** A step of fork by process i that changes its child's slot k to e. */
  lemma ForkStepKeepsInv(s: Sys, t: Sys, c: nat, i: nat, k: nat)
    requires Inv(s) && Runs(s, c, i) && i != k && k < |s.procs| == |t.procs| && |t.forks| == |s.forks|
    requires !Alive(s.procs[k].state) && !Alive(t.procs[k].state)
    requires t == s.(procs := s.procs[k := t.procs[k]], forks := s.forks[i := t.forks[i]], nextpid := t.nextpid)
    requires t.nextpid >= s.nextpid
    requires ParentOk(t, k) && LocalOk(t, k) && (t.procs[k].parent == s.procs[k].parent || s.procs[k].parent == -1)
    requires ForkOk(t, i) && (t.forks[i].NoFork? || t.forks[i].child == k)
    requires forall j :: 0 <= j < |s.forks| && j != i && !s.forks[j].NoFork? ==> s.forks[j].child != k
    requires t.procs[k].state != Unused ==>
      (t.procs[k].pid == s.procs[k].pid && s.procs[k].state != Unused) || t.procs[k].pid >= s.nextpid
    ensures Inv(t)
  {
    assert s.procs[i].state == Running;
    assert LocalOk(s, k);
    SlotKeepsTable(s, t, k);
    LedgerSame(s, t);
    MatchSame(s.procs, s.cpus, t.procs);
    ForksUpdate(s, t, i, k);
    forall j | 0 <= j < |s.procs| && s.procs[j].state != Unused ensures s.procs[j].pid < s.nextpid {
      assert LocalOk(s, j);
    }
    PidsUpdate(s, t, k);
  }

  lemma ForkAllocKeepsInv(s: Sys, c: nat)
    requires Inv(s) && Enabled(s, ForkAlloc(c))
    ensures Apply(s, ForkAlloc(c)).Some? && Inv(Apply(s, ForkAlloc(c)).value)
  {
    var t := Apply(s, ForkAlloc(c)).value;
    var i := s.cpus[c];
    var free := FirstUnused(s.procs, 0);
    if free.Some? {
      var k := free.value;
      assert LocalOk(s, k) && ParentOk(s, k) && LocalOk(s, i);
      assert s.procs[i].state == Running;
      forall j | 0 <= j < |s.forks| && j != i && !s.forks[j].NoFork? ensures s.forks[j].child != k {
        assert ForkOk(s, j);
      }
      ForkStepKeepsInv(s, t, c, i, k);
    }
  }

  lemma ForkNextKeepsInv(s: Sys, c: nat, step: Step)
    requires Inv(s) && Enabled(s, step) && (step == ForkFail(c) || step == ForkParent(c))
    ensures Apply(s, step).Some? && Inv(Apply(s, step).value)
  {
    var t := Apply(s, step).value;
    var i := s.cpus[c];
    var k := s.forks[i].child;
    assert ForkOk(s, i) && LocalOk(s, k) && ParentOk(s, k) && LocalOk(s, i);
    assert s.procs[i].state == Running;
    ForkStepKeepsInv(s, t, c, i, k);
  }

  /** A child that becomes runnable joins the tree. */
  lemma JoinKeepsTable(s: Sys, t: Sys, i: nat, k: nat)
    requires Core(s) && i < |s.procs| && k < |s.procs| && i != k && s.procs[i].state == Running
    requires t == s.(procs := s.procs[k := s.procs[k].(state := Runnable)], forks := s.forks[i := NoFork])
    requires s.procs[k].state == Embryo && s.procs[k].parent == i
    ensures Table(t)
  {
    forall j | 0 <= j < |t.procs| ensures ParentOk(t, j) && LocalOk(t, j) && WaitOk(t, j) {
      assert ParentOk(s, j) && LocalOk(s, j) && WaitOk(s, j);
      if HasChild(s.procs, j) {
        var m :| 0 <= m < |s.procs| && s.procs[m].parent == j;
        assert t.procs[m].parent == j;
      }
      if HasZombieChild(t.procs, j) {
        var m :| 0 <= m < |t.procs| && t.procs[m].parent == j && t.procs[m].state == Zombie;
        assert s.procs[m].parent == j && s.procs[m].state == Zombie;
      }
    }
  }

  lemma ForkDoneKeepsInv(s: Sys, c: nat)
    requires Inv(s) && Enabled(s, ForkDone(c))
    ensures Apply(s, ForkDone(c)).Some? && Inv(Apply(s, ForkDone(c)).value)
  {
    var t := Apply(s, ForkDone(c)).value;
    var i := s.cpus[c];
    var k := s.forks[i].child;
    assert ForkOk(s, i) && LocalOk(s, k);
    assert s.procs[i].state == Running;
    JoinKeepsTable(s, t, i, k);
    LedgerSame(s, t);
    MatchSame(s.procs, s.cpus, t.procs);
    ForksUpdate(s, t, i, k);
    PidsUpdate(s, t, k);
  }

  // ---------------------------------------------------------------- exit

  /** What exit makes of another entry of the table. */
  predicate AfterExit(s: Sys, i: nat, k: nat, e: Entry)
    requires i < |s.procs| && k < |s.procs|
  {
    var f := s.procs[k];
    && e.pid == f.pid && e.chan == f.chan && e.killed == f.killed
    && e.parent == (if f.parent == i then s.init else f.parent)
    && e.state ==
       if f.state == Sleeping && f.chan.OnProc? && (f.chan.i == s.procs[i].parent || (f.chan.i == s.init && HasZombieChild(s.procs, i)))
       then Runnable else f.state
  }

  lemma SameZombies(procs: seq<Entry>, woken: seq<Entry>, i: int)
    requires |woken| == |procs| && forall k :: 0 <= k < |procs| ==> woken[k].parent == procs[k].parent
    requires forall k :: 0 <= k < |procs| ==> (woken[k].state == Zombie <==> procs[k].state == Zombie)
    ensures HasZombieChild(woken, i) <==> HasZombieChild(procs, i)
  {
    if HasZombieChild(procs, i) {
      var z :| 0 <= z < |procs| && procs[z].parent == i && procs[z].state == Zombie;
      assert woken[z].parent == i && woken[z].state == Zombie;
    }
  }

  lemma ExitTableAt(s: Sys, i: nat)
    requires Core(s) && i < |s.procs| && s.procs[i].state == Running && s.procs[i].parent != i && s.procs[i].parent >= 0
    ensures |ExitTable(s, i)| == |s.procs|
    ensures ExitTable(s, i)[i] == s.procs[i].(state := Zombie)
    ensures forall k :: 0 <= k < |s.procs| && k != i ==> AfterExit(s, i, k, ExitTable(s, i)[k])
  {
    var woken := Wakeup(s.procs, OnProc(s.procs[i].parent));
    SameZombies(s.procs, woken, i);
  }

  lemma ExitKeepsWait(s: Sys, t: Sys, i: nat, k: nat)
    requires Core(s) && i < |s.procs| && k < |s.procs| == |t.procs| && s.procs[i].state == Running
    requires t.procs[i] == s.procs[i].(state := Zombie)
    requires forall j :: 0 <= j < |s.procs| && j != i ==> AfterExit(s, i, j, t.procs[j])
    ensures WaitOk(t, k)
  {
    assert WaitOk(s, k) && LocalOk(s, k);
    if t.procs[k].state == Sleeping && t.procs[k].chan == OnProc(k) {
      assert AfterExit(s, i, k, t.procs[k]);
      var m :| 0 <= m < |s.procs| && s.procs[m].parent == k;
      assert t.procs[m].parent == k;
      forall j | 0 <= j < |t.procs| ensures !(t.procs[j].parent == k && t.procs[j].state == Zombie) {
        if j != i {
          assert AfterExit(s, i, j, t.procs[j]);
        }
      }
    }
  }

  lemma ExitKeepsTable(s: Sys, t: Sys, i: nat)
    requires Core(s) && i < |s.procs| == |t.procs| && s.procs[i].state == Running && i != s.init && s.forks[i].NoFork?
    requires t.forks == s.forks && t.init == s.init && t.nextpid == s.nextpid && Shape(t)
    requires t.procs[i] == s.procs[i].(state := Zombie)
    requires forall j :: 0 <= j < |s.procs| && j != i ==> AfterExit(s, i, j, t.procs[j])
    ensures Table(t)
  {
    forall k | 0 <= k < |t.procs| ensures ParentOk(t, k) && LocalOk(t, k) && WaitOk(t, k) {
      assert ParentOk(s, k) && LocalOk(s, k) && LocalOk(s, s.init) && LocalOk(s, i);
      ExitKeepsWait(s, t, i, k);
      if k != i {
        assert AfterExit(s, i, k, t.procs[k]);
      }
      assert AfterExit(s, i, s.init, t.procs[s.init]);
      var p := t.procs[k].parent;
      if p != -1 && p != s.init {
        assert s.procs[k].parent == p && p != i;
        assert AfterExit(s, i, p, t.procs[p]);
      }
    }
  }

  lemma ExitKeepsBooks(s: Sys, t: Sys, i: nat)
    requires Core(s) && i < |s.procs| == |t.procs| && s.procs[i].state == Running && s.forks[i].NoFork?
    requires t.forks == s.forks && t.nextpid == s.nextpid && t.reaped == s.reaped && t.exited == s.exited + [s.procs[i].pid]
    requires t.procs[i] == s.procs[i].(state := Zombie)
    requires forall j :: 0 <= j < |s.procs| && j != i ==> AfterExit(s, i, j, t.procs[j])
    ensures PidsDiffer(t) && Forks(t) && Ledger(t)
  {
    assert LocalOk(s, i);
    forall j, k | 0 <= j < |t.procs| && 0 <= k < |t.procs| && j != k && t.procs[j].state != Unused && t.procs[k].state != Unused
      ensures t.procs[j].pid != t.procs[k].pid
    {
      assert s.procs[j].state != Unused && s.procs[k].state != Unused;
    }
    forall j | 0 <= j < |t.forks| ensures ForkOk(t, j) {
      assert ForkOk(s, j);
    }
    forall p | p in t.exited && p !in t.reaped
      ensures exists z :: 0 <= z < |t.procs| && t.procs[z].state == Zombie && t.procs[z].pid == p
    {
      if p == s.procs[i].pid {
        assert t.procs[i].state == Zombie && t.procs[i].pid == p;
      } else {
        var z :| 0 <= z < |s.procs| && s.procs[z].state == Zombie && s.procs[z].pid == p;
        assert t.procs[z].state == Zombie && t.procs[z].pid == p;
      }
    }
  }

  lemma ExitKeepsInv(s: Sys, c: nat)
    requires Inv(s) && Enabled(s, Exit(c))
    ensures Apply(s, Exit(c)).Some? && Inv(Apply(s, Exit(c)).value)
  {
    var i := s.cpus[c];
    assert s.procs[i].state == Running && ParentOk(s, i);
    ExitTableAt(s, i);
    var t := s.(procs := ExitTable(s, i), exited := s.exited + [s.procs[i].pid]);
    ExitKeepsTable(s, t, i);
    ExitKeepsBooks(s, t, i);
    MatchVacated(s.procs, s.cpus, c, t.procs);
    SchedKeepsInv(t, c);
  }

  // ---------------------------------------------------------------- wait

  lemma ReapKeepsTable(s: Sys, t: Sys, i: nat, z: nat)
    requires Core(s) && i < |s.procs| && z < |s.procs| && s.procs[i].state == Running
    requires s.procs[z].state == Zombie && s.procs[z].parent == i
    requires t == s.(procs := s.procs[z := Entry(Unused, 0, -1, s.procs[z].chan, false)], reaped := s.reaped + [s.procs[z].pid])
    ensures Table(t)
  {
    NoParentThere(s, z);
    forall j | 0 <= j < |t.procs| ensures ParentOk(t, j) && LocalOk(t, j) && WaitOk(t, j) {
      assert ParentOk(s, j) && LocalOk(s, j) && WaitOk(s, j) && LocalOk(s, z) && s.procs[j].parent != z;
      if HasChild(s.procs, j) && j != i {
        var m :| 0 <= m < |s.procs| && s.procs[m].parent == j;
        assert t.procs[m].parent == j;
      }
      if HasZombieChild(t.procs, j) {
        var m :| 0 <= m < |t.procs| && t.procs[m].parent == j && t.procs[m].state == Zombie;
        assert s.procs[m].parent == j && s.procs[m].state == Zombie;
      }
    }
  }

  lemma ReapKeepsBooks(s: Sys, t: Sys, z: nat)
    requires Core(s) && z < |s.procs| && s.procs[z].state == Zombie
    requires t == s.(procs := s.procs[z := Entry(Unused, 0, -1, s.procs[z].chan, false)], reaped := s.reaped + [s.procs[z].pid])
    ensures PidsDiffer(t) && Forks(t) && Ledger(t)
  {
    forall j | 0 <= j < |t.forks| ensures ForkOk(t, j) {
      assert ForkOk(s, j) && LocalOk(s, z);
    }
    forall p | p in t.exited && p !in t.reaped
      ensures exists y :: 0 <= y < |t.procs| && t.procs[y].state == Zombie && t.procs[y].pid == p
    {
      assert t.reaped[|t.reaped| - 1] == s.procs[z].pid;
      assert forall q :: q in s.reaped ==> q in t.reaped;
      var y :| 0 <= y < |s.procs| && s.procs[y].state == Zombie && s.procs[y].pid == p;
      assert t.procs[y].state == Zombie && t.procs[y].pid == p;
    }
  }

  lemma WaitKeepsInv(s: Sys, c: nat)
    requires Inv(s) && Enabled(s, Wait(c))
    ensures Apply(s, Wait(c)).Some? && Inv(Apply(s, Wait(c)).value)
  {
    var i := s.cpus[c];
    assert s.procs[i].state == Running;
    var zombie := FirstZombieChild(s.procs, i, 0);
    if zombie.Some? {
      var z := zombie.value;
      var t := Apply(s, Wait(c)).value;
      ReapKeepsTable(s, t, i, z);
      ReapKeepsBooks(s, t, z);
      MatchSame(s.procs, s.cpus, t.procs);
    } else if HasChild(s.procs, i) && !s.procs[i].killed {
      assert !HasZombieChild(s.procs, i);
      RelabelAndSched(s, c, i, s.procs[i].(state := Sleeping, chan := OnProc(i)));
    }
  }

  // ---------------------------------------------------------------- runs

  lemma YieldKeepsInv(s: Sys, c: nat)
    requires Inv(s) && c < |s.cpus| && Runs(s, c, s.cpus[c])
    ensures Sched(SetState(s, s.cpus[c], Runnable), c).Some? && Inv(Sched(SetState(s, s.cpus[c], Runnable), c).value)
  {
    var i := s.cpus[c];
    assert s.procs[i].state == Running && LocalOk(s, i);
    RelabelAndSched(s, c, i, s.procs[i].(state := Runnable));
  }

  lemma IdleKeepsInv(s: Sys, c: nat)
    requires Inv(s) && c < |s.cpus| && s.cpus[c] == -1
    ensures Sched(s, c).Some? && Inv(Sched(s, c).value)
  {
    MatchVacated(s.procs, s.cpus, c, s.procs);
    SchedKeepsInv(s, c);
  }

  /** No step panics and every step keeps the invariant. */
  lemma StepKeepsInv(s: Sys, step: Step)
    requires Inv(s) && Enabled(s, step)
    ensures Apply(s, step).Some? && Inv(Apply(s, step).value)
  {
    match step
    case ForkAlloc(c) => ForkAllocKeepsInv(s, c);
    case ForkFail(c) => ForkNextKeepsInv(s, c, step);
    case ForkParent(c) => ForkNextKeepsInv(s, c, step);
    case ForkDone(c) => ForkDoneKeepsInv(s, c);
    case Exit(c) => ExitKeepsInv(s, c);
    case Wait(c) => WaitKeepsInv(s, c);
    case Sleep(c, id) =>
      assert s.procs[s.cpus[c]].state == Running;
      RelabelAndSched(s, c, s.cpus[c], s.procs[s.cpus[c]].(state := Sleeping, chan := OnOther(id)));
    case Yield(c) => YieldKeepsInv(s, c);
    case Reschedule(c) =>
      if s.cpus[c] == -1 {
        IdleKeepsInv(s, c);
      } else {
        YieldKeepsInv(s, c);
      }
    case WakeupOther(id) => WakingKeepsInv(s, Apply(s, step).value);
    case Kill(pid) => WakingKeepsInv(s, Apply(s, step).value);
  }

  lemma BootInv(nproc: nat, ncpu: nat)
    requires nproc > 0
    ensures Inv(Boot(nproc, ncpu))
  {
    var s := Boot(nproc, ncpu);
    forall k | 0 <= k < nproc ensures ParentOk(s, k) && LocalOk(s, k) && WaitOk(s, k) {
    }
  }

  ghost predicate Run(s: Sys, steps: seq<Step>, t: Sys)
    decreases |steps|
  {
    if steps == [] then t == s
    else Enabled(s, steps[0]) && Apply(s, steps[0]).Some? && Run(Apply(s, steps[0]).value, steps[1..], t)
  }

  /** In every run, for any number of processes and CPUs: the table is a tree of processes
      under init, the running processes and the busy CPUs match one to one, nobody sleeps in
      wait in vain, every exit is reaped at most once, and the panics of sched and
      reschedule are out of reach. */
  lemma {:induction false} EveryRunIsSafe(s: Sys, steps: seq<Step>, t: Sys)
    requires Inv(s) && Run(s, steps, t)
    ensures Inv(t) && forall step :: Enabled(t, step) ==> Apply(t, step).Some?
    decreases |steps|
  {
    if steps == [] {
      forall step | Enabled(t, step) ensures Apply(t, step).Some? {
        StepKeepsInv(t, step);
      }
    } else {
      StepKeepsInv(s, steps[0]);
      EveryRunIsSafe(Apply(s, steps[0]).value, steps[1..], t);
    }
  }

  /** The same from the state userinit leaves, spelled out. */
  lemma FromBoot(nproc: nat, ncpu: nat, steps: seq<Step>, t: Sys)
    requires nproc > 0 && Run(Boot(nproc, ncpu), steps, t)
    ensures forall k :: 0 <= k < |t.procs| && Alive(t.procs[k].state) && k != t.init ==>
      var p := t.procs[k].parent; 0 <= p < |t.procs| && Waitable(t.procs[p].state) && t.procs[p].pid < t.procs[k].pid
    ensures forall k :: 0 <= k < |t.procs| && t.procs[k].state == Sleeping && t.procs[k].chan == OnProc(k) ==>
      HasChild(t.procs, k) && !HasZombieChild(t.procs, k)
    ensures forall c :: 0 <= c < |t.cpus| && t.cpus[c] != -1 ==> 0 <= t.cpus[c] < |t.procs| && t.procs[t.cpus[c]].state == Running
    ensures forall c, d :: 0 <= c < d < |t.cpus| && t.cpus[c] != -1 ==> t.cpus[c] != t.cpus[d]
    ensures forall k :: 0 <= k < |t.procs| && t.procs[k].state == Running ==> exists c :: 0 <= c < |t.cpus| && t.cpus[c] == k
    ensures forall i, j :: 0 <= i < j < |t.reaped| ==> t.reaped[i] != t.reaped[j]
    ensures forall step :: Enabled(t, step) ==> Apply(t, step).Some?
  {
    BootInv(nproc, ncpu);
    EveryRunIsSafe(Boot(nproc, ncpu), steps, t);
    forall k | 0 <= k < |t.procs| && Alive(t.procs[k].state) && k != t.init
      ensures var p := t.procs[k].parent; 0 <= p < |t.procs| && Waitable(t.procs[p].state) && t.procs[p].pid < t.procs[k].pid
    {
      assert ParentOk(t, k);
    }
    forall k | 0 <= k < |t.procs| && t.procs[k].state == Sleeping && t.procs[k].chan == OnProc(k)
      ensures HasChild(t.procs, k) && !HasZombieChild(t.procs, k)
    {
      assert WaitOk(t, k);
    }
    forall k | 0 <= k < |t.procs| && t.procs[k].state == Running ensures exists c :: 0 <= c < |t.cpus| && t.cpus[c] == k {
      assert OnCpu(t.cpus, -1, k);
    }
  }

  /** The n-th ancestor. */
  function Ancestor(s: Sys, k: int, n: nat): int
    decreases n
  {
    if n == 0 || !(0 <= k < |s.procs|) then k else Ancestor(s, s.procs[k].parent, n - 1)
  }

  /** The chain of parents of every process ends at init. */
  lemma {:induction false} AncestorsEndAtInit(s: Sys, k: nat) returns (n: nat)
    requires Inv(s) && k < |s.procs| && Alive(s.procs[k].state)
    ensures Ancestor(s, k, n) == s.init
    decreases s.procs[k].pid
  {
    if k == s.init {
      return 0;
    }
    assert ParentOk(s, k) && LocalOk(s, k);
    var p := s.procs[k].parent;
    assert LocalOk(s, p);
    var m := AncestorsEndAtInit(s, p);
    return m + 1;
  }
}
