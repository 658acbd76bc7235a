/** What holds of the process table whenever ptable.lock is free, in every run. */
module ProcTree {
  import opened Basics
  import opened Proc

  // ---------------------------------------------------------------- invariant

  predicate Waitable(st: ProcState) {
    st == Sleeping || st == Runnable || st == Running
  }

  predicate Alive(st: ProcState) {
    Waitable(st) || st == Zombie
  }

  predicate Shape(s: Sys) {
    && |s.forks| == |s.procs| && s.init < |s.procs| && s.nextpid > 0
    && (forall c :: 0 <= c < |s.cpus| ==> -1 <= s.cpus[c] < |s.procs|)
  }

  /** A parent pointer leads to a process that can still call wait, and pids grow downwards. */
  predicate ParentOk(s: Sys, k: nat)
    requires k < |s.procs|
  {
    var e := s.procs[k];
    && (e.parent != -1 ==> 0 <= e.parent < |s.procs| && Waitable(s.procs[e.parent].state) && s.procs[e.parent].pid < e.pid)
    && (Alive(e.state) && k != s.init ==> e.parent != -1)
    && (e.state == Unused || k == s.init ==> e.parent == -1)
  }

  /** Facts of one slot. */
  predicate LocalOk(s: Sys, k: nat)
    requires k < |s.procs| == |s.forks|
  {
    var e := s.procs[k];
    && (e.state != Unused ==> 0 < e.pid < s.nextpid)
    && (!(e.state == Sleeping || e.state == Runnable) ==> e.chan == NoChan)
    && (e.chan.OnProc? ==> e.chan.i == k)
    && (!(e.state == Runnable || e.state == Running) ==> s.forks[k].NoFork?)
    && (k == s.init ==> Waitable(e.state) && e.pid == 1)
  }

  /** Whoever sleeps in wait has a child to wait for, none that has exited already, and has
      not been killed. */
  predicate WaitOk(s: Sys, k: nat)
    requires k < |s.procs|
  {
    s.procs[k].state == Sleeping && s.procs[k].chan == OnProc(k) ==>
      !s.procs[k].killed && HasChild(s.procs, k) && !HasZombieChild(s.procs, k)
  }

  predicate Table(s: Sys)
    requires |s.procs| == |s.forks|
  {
    forall k :: 0 <= k < |s.procs| ==> ParentOk(s, k) && LocalOk(s, k) && WaitOk(s, k)
  }

  predicate PidsDiffer(s: Sys) {
    forall j, k :: 0 <= j < |s.procs| && 0 <= k < |s.procs| && j != k && s.procs[j].state != Unused && s.procs[k].state != Unused
      ==> s.procs[j].pid != s.procs[k].pid
  }

  predicate ForkOk(s: Sys, i: nat)
    requires i < |s.forks| == |s.procs|
  {
    !s.forks[i].NoFork? ==>
      var k := s.forks[i].child;
      && k < |s.procs| && k != i && s.procs[k].state == Embryo && s.procs[i].pid < s.procs[k].pid
      && s.procs[k].parent == (if s.forks[i].Allocated? then -1 else i)
  }

  predicate Forks(s: Sys)
    requires |s.forks| == |s.procs|
  {
    && (forall i :: 0 <= i < |s.forks| ==> ForkOk(s, i))
    && (forall i, j :: 0 <= i < |s.forks| && 0 <= j < |s.forks| && i != j && !s.forks[i].NoFork? && !s.forks[j].NoFork?
          ==> s.forks[i].child != s.forks[j].child)
  }

  /** Some CPU other than c has process k. */
  predicate OnCpu(cpus: seq<int>, c: int, k: int) {
    exists d :: 0 <= d < |cpus| && d != c && cpus[d] == k
  }

  /** The CPUs with a process and the RUNNING processes, except possibly CPU c, match one
      to one. */
  predicate Matched(procs: seq<Entry>, cpus: seq<int>, c: int) {
    && (forall d :: 0 <= d < |cpus| && d != c && cpus[d] != -1 ==> 0 <= cpus[d] < |procs| && procs[cpus[d]].state == Running)
    && (forall d, e :: 0 <= d < |cpus| && 0 <= e < |cpus| && d != e && d != c && e != c && cpus[d] != -1 ==> cpus[d] != cpus[e])
    && (forall k :: 0 <= k < |procs| && procs[k].state == Running ==> OnCpu(cpus, c, k))
  }

  /** Every exit is on the books once: as a zombie or as reaped, never both. */
  predicate Ledger(s: Sys) {
    && (forall i, j :: 0 <= i < j < |s.reaped| ==> s.reaped[i] != s.reaped[j])
    && (forall p :: p in s.reaped ==> p in s.exited)
    && (forall p :: p in s.exited ==> p < s.nextpid)
    && (forall p :: p in s.exited ==> p in s.reaped || exists z :: 0 <= z < |s.procs| && s.procs[z].state == Zombie && s.procs[z].pid == p)
    && (forall k :: 0 <= k < |s.procs| && s.procs[k].state == Zombie ==> s.procs[k].pid in s.exited && s.procs[k].pid !in s.reaped)
    && (forall k :: 0 <= k < |s.procs| && s.procs[k].state != Zombie && s.procs[k].state != Unused ==> s.procs[k].pid !in s.exited)
  }

  predicate Core(s: Sys) {
    Shape(s) && Table(s) && PidsDiffer(s) && Forks(s) && Ledger(s)
  }

  predicate Inv(s: Sys) {
    Core(s) && Matched(s.procs, s.cpus, -1)
  }

  // ---------------------------------------------------------------- relabelling

  /** t differs from s only in chan, killed and states among sleeping, runnable, running. */
  predicate Relabels(s: Sys, t: Sys) {
    && |t.procs| == |s.procs| && t.forks == s.forks && t.nextpid == s.nextpid && t.init == s.init
    && t.exited == s.exited && t.reaped == s.reaped && |t.cpus| == |s.cpus|
    && forall k :: 0 <= k < |s.procs| ==>
         && t.procs[k].pid == s.procs[k].pid && t.procs[k].parent == s.procs[k].parent
         && (t.procs[k].state == s.procs[k].state || (Waitable(t.procs[k].state) && Waitable(s.procs[k].state)))
  }

  lemma RelabelKeepsFamily(s: Sys, t: Sys, k: nat)
    requires Shape(s) && Relabels(s, t) && k < |s.procs| && ParentOk(s, k)
    ensures ParentOk(t, k)
    ensures HasChild(t.procs, k) == HasChild(s.procs, k) && HasZombieChild(t.procs, k) == HasZombieChild(s.procs, k)
  {
    if HasChild(s.procs, k) {
      var j :| 0 <= j < |s.procs| && s.procs[j].parent == k;
      assert t.procs[j].parent == k;
    }
    if HasZombieChild(s.procs, k) {
      var j :| 0 <= j < |s.procs| && s.procs[j].parent == k && s.procs[j].state == Zombie;
      assert t.procs[j].parent == k && t.procs[j].state == Zombie;
    }
  }

  lemma RelabelKeepsBooks(s: Sys, t: Sys)
    requires Shape(s) && Forks(s) && PidsDiffer(s) && Ledger(s) && Relabels(s, t)
    ensures Forks(t) && PidsDiffer(t) && Ledger(t)
  {
    forall p | p in t.exited && p !in t.reaped
      ensures exists z :: 0 <= z < |t.procs| && t.procs[z].state == Zombie && t.procs[z].pid == p
    {
      var z :| 0 <= z < |s.procs| && s.procs[z].state == Zombie && s.procs[z].pid == p;
      assert t.procs[z].state == Zombie && t.procs[z].pid == p;
    }
    forall i | 0 <= i < |t.forks| ensures ForkOk(t, i) {
      assert ForkOk(s, i);
    }
  }

  lemma MatchFilled(procs: seq<Entry>, cpus: seq<int>, c: nat, k: nat, e: Entry)
    requires c < |cpus| && Matched(procs, cpus, c) && k < |procs| && procs[k].state == Runnable && e.state == Running
    ensures Matched(procs[k := e], cpus[c := k], -1)
  {
    var procs', cpus' := procs[k := e], cpus[c := k];
    forall j | 0 <= j < |procs'| && procs'[j].state == Running ensures OnCpu(cpus', -1, j) {
      if j == k {
        assert cpus'[c] == k;
      } else {
        var d :| 0 <= d < |cpus| && d != c && cpus[d] == j;
        assert cpus'[d] == j;
      }
    }
  }

  lemma MatchIdle(procs: seq<Entry>, cpus: seq<int>, c: nat)
    requires c < |cpus| && Matched(procs, cpus, c)
    ensures Matched(procs, cpus[c := -1], -1)
  {
    var cpus' := cpus[c := -1];
    forall j | 0 <= j < |procs| && procs[j].state == Running ensures OnCpu(cpus', -1, j) {
      var d :| 0 <= d < |cpus| && d != c && cpus[d] == j;
      assert cpus'[d] == j;
    }
  }

  /** The process of CPU c stops running: the other CPUs stay matched. */
  lemma MatchVacated(procs: seq<Entry>, cpus: seq<int>, c: nat, procs': seq<Entry>)
    requires c < |cpus| && Matched(procs, cpus, -1) && |procs'| == |procs|
    requires cpus[c] != -1 ==> 0 <= cpus[c] < |procs| && procs'[cpus[c]].state != Running
    requires forall k :: 0 <= k < |procs| && k != cpus[c] ==> (procs'[k].state == Running <==> procs[k].state == Running)
    ensures Matched(procs', cpus, c)
  {
    forall j | 0 <= j < |procs'| && procs'[j].state == Running ensures OnCpu(cpus, c, j) {
      assert OnCpu(cpus, -1, j);
      var d :| 0 <= d < |cpus| && cpus[d] == j;
      assert d != c;
    }
  }

  predicate SwitchedIn(e: Entry, f: Entry) {
    e.state == Runnable && f == e.(state := Running, chan := NoChan)
  }

  /** Sched succeeds and fills CPU c when the other CPUs are matched. */
  lemma SchedMatches(s: Sys, c: nat)
    requires Shape(s) && c < |s.cpus| && Matched(s.procs, s.cpus, c)
    requires 0 <= s.cpus[c] ==> s.procs[s.cpus[c]].state != Running
    ensures Sched(s, c).Some?
    ensures var t := Sched(s, c).value; Relabels(s, t) && Shape(t) && Matched(t.procs, t.cpus, -1)
    ensures var t := Sched(s, c).value; forall k :: 0 <= k < |s.procs| ==> t.procs[k] == s.procs[k] || SwitchedIn(s.procs[k], t.procs[k])
  {
    match RoundRobin(s.procs, s.rrindex)
    case Some(k) => MatchFilled(s.procs, s.cpus, c, k, s.procs[k].(state := Running, chan := NoChan));
    case None => MatchIdle(s.procs, s.cpus, c);
  }

  lemma RelabelKeepsCore(s: Sys, t: Sys)
    requires Core(s) && Relabels(s, t) && Shape(t)
    requires forall k :: 0 <= k < |t.procs| ==> LocalOk(t, k) && WaitOk(t, k)
    ensures Core(t)
  {
    RelabelKeepsBooks(s, t);
    forall k | 0 <= k < |t.procs| ensures ParentOk(t, k) {
      RelabelKeepsFamily(s, t, k);
    }
  }

  /** From a consistent table with CPU c's process no longer running, sched reaches a
      consistent state and does not panic. */
  lemma SchedKeepsInv(s: Sys, c: nat)
    requires Core(s) && c < |s.cpus| && Matched(s.procs, s.cpus, c)
    requires 0 <= s.cpus[c] ==> s.procs[s.cpus[c]].state != Running
    ensures Sched(s, c).Some? && Inv(Sched(s, c).value)
  {
    SchedMatches(s, c);
    var t := Sched(s, c).value;
    forall k | 0 <= k < |t.procs| ensures LocalOk(t, k) && WaitOk(t, k) {
      assert LocalOk(s, k) && WaitOk(s, k);
      RelabelKeepsFamily(s, t, k);
    }
    RelabelKeepsCore(s, t);
  }

  /** The running process i of CPU c gets a new label and calls sched. */
  lemma RelabelAndSched(s: Sys, c: nat, i: nat, e: Entry)
    requires Inv(s) && Runs(s, c, i) && Waitable(e.state) && e.state != Running
    requires e.pid == s.procs[i].pid && e.parent == s.procs[i].parent
    requires (e.chan.OnProc? ==> e.chan.i == i) && (e.state == Sleeping ==> s.forks[i].NoFork?)
    requires e.state == Sleeping && e.chan == OnProc(i) ==> !e.killed && HasChild(s.procs, i) && !HasZombieChild(s.procs, i)
    ensures var t := s.(procs := s.procs[i := e]); Sched(t, c).Some? && Inv(Sched(t, c).value)
  {
    var t := s.(procs := s.procs[i := e]);
    assert s.procs[i].state == Running;
    assert Relabels(s, t);
    forall k | 0 <= k < |t.procs| ensures LocalOk(t, k) && WaitOk(t, k) {
      assert LocalOk(s, k) && WaitOk(s, k);
      RelabelKeepsFamily(s, t, k);
    }
    RelabelKeepsCore(s, t);
    MatchVacated(s.procs, s.cpus, c, t.procs);
    SchedKeepsInv(t, c);
  }

  lemma MatchSame(procs: seq<Entry>, cpus: seq<int>, procs': seq<Entry>)
    requires Matched(procs, cpus, -1) && |procs'| == |procs|
    requires forall k :: 0 <= k < |procs| ==> (procs'[k].state == Running <==> procs[k].state == Running)
    ensures Matched(procs', cpus, -1)
  {
  }

  predicate Disturbed(e: Entry, f: Entry) {
    if e.state == Sleeping then f == e.(state := Runnable, killed := f.killed) else f == e.(killed := true)
  }

  /** Waking sleepers, for whatever reason, keeps everything. */
  lemma WakingKeepsInv(s: Sys, t: Sys)
    requires Inv(s) && t == s.(procs := t.procs) && |t.procs| == |s.procs|
    requires forall k :: 0 <= k < |s.procs| ==> t.procs[k] == s.procs[k] || Disturbed(s.procs[k], t.procs[k])
    ensures Inv(t)
  {
    assert Relabels(s, t);
    forall k | 0 <= k < |t.procs| ensures LocalOk(t, k) && WaitOk(t, k) {
      assert LocalOk(s, k) && WaitOk(s, k);
      RelabelKeepsFamily(s, t, k);
    }
    RelabelKeepsCore(s, t);
    MatchSame(s.procs, s.cpus, t.procs);
  }
}
