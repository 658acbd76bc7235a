/** The process table of proc.c as a transition system. A step is one critical section of
    ptable.lock on some CPU, or one of fork's writes outside it; a step that calls sched
    ends when the process it switched to releases the lock. */
module Proc {
  import opened Basics

  datatype ProcState = Unused | Embryo | Sleeping | Runnable | Running | Zombie

  /** What a process sleeps on: a process structure (in wait) or anything else. */
  datatype Chan = NoChan | OnProc(i: nat) | OnOther(id: int)

  /** parent is an index of the table, or -1 for the null pointer. */
  datatype Entry = Entry(state: ProcState, pid: int, parent: int, chan: Chan, killed: bool)

  /** How far a process is in fork: which slot it has allocated, and whether it has set
      the parent pointer there. */
  datatype Fork = NoFork | Allocated(child: nat) | Parented(child: nat)

  /** cpus[c] is the process of CPU c, or -1 when it idles. `exited` and `reaped` record the
      pids of the processes that have exited and that wait has returned. */
  datatype Sys = Sys(procs: seq<Entry>, cpus: seq<int>, nextpid: int, rrindex: nat, init: nat,
                     forks: seq<Fork>, exited: seq<int>, reaped: seq<int>)

  /** userinit: one runnable process, the idle CPUs, and an otherwise empty table. */
  function Boot(nproc: nat, ncpu: nat): Sys
    requires nproc > 0
  {
    Sys(seq(nproc, i => if i == 0 then Entry(Runnable, 1, -1, NoChan, false) else Entry(Unused, 0, -1, NoChan, false)),
        seq(ncpu, _ => -1), 2, 0, 0, seq(nproc, _ => NoFork), [], [])
  }

  // ---------------------------------------------------------------- table scans

  /** roundrobin from its turn i on. */
  function PickFrom(procs: seq<Entry>, rr: nat, i: nat): (r: Option<nat>)
    requires i <= |procs|
    ensures r.Some? ==> r.value < |procs| && procs[r.value].state == Runnable
    decreases |procs| - i
  {
    if i == |procs| then None
    else if procs[(i + rr + 1) % |procs|].state == Runnable then Some((i + rr + 1) % |procs|)
    else PickFrom(procs, rr, i + 1)
  }

  function RoundRobin(procs: seq<Entry>, rr: nat): Option<nat> {
    PickFrom(procs, rr, 0)
  }

  function Woken(e: Entry, chan: Chan): Entry {
    if e.state == Sleeping && e.chan == chan then e.(state := Runnable) else e
  }

  /** wakeup1. */
  function Wakeup(procs: seq<Entry>, chan: Chan): (r: seq<Entry>)
    ensures |r| == |procs| && forall i :: 0 <= i < |r| ==> r[i] == Woken(procs[i], chan)
  {
    seq(|procs|, i requires 0 <= i < |procs| => Woken(procs[i], chan))
  }

  /** The first unused slot from k on. */
  function FirstUnused(procs: seq<Entry>, k: nat): (r: Option<nat>)
    requires k <= |procs|
    ensures r.Some? ==> k <= r.value < |procs| && procs[r.value].state == Unused
    ensures r.None? ==> forall j :: k <= j < |procs| ==> procs[j].state != Unused
    decreases |procs| - k
  {
    if k == |procs| then None else if procs[k].state == Unused then Some(k) else FirstUnused(procs, k + 1)
  }

  /** The first exited child of process i from slot k on. */
  function FirstZombieChild(procs: seq<Entry>, i: int, k: nat): (r: Option<nat>)
    requires k <= |procs|
    ensures r.Some? ==> k <= r.value < |procs| && procs[r.value].state == Zombie && procs[r.value].parent == i
    ensures r.None? ==> forall j :: k <= j < |procs| ==> !(procs[j].state == Zombie && procs[j].parent == i)
    decreases |procs| - k
  {
    if k == |procs| then None
    else if procs[k].parent == i && procs[k].state == Zombie then Some(k)
    else FirstZombieChild(procs, i, k + 1)
  }

  predicate HasChild(procs: seq<Entry>, i: int) {
    exists k :: 0 <= k < |procs| && procs[k].parent == i
  }

  predicate HasZombieChild(procs: seq<Entry>, i: int) {
    exists k :: 0 <= k < |procs| && procs[k].parent == i && procs[k].state == Zombie
  }

  function Adopted(e: Entry, i: int, init: int): Entry {
    if e.parent == i then e.(parent := init) else e
  }

  /** exit's loop over the table: children go to init, which is woken when one of them has
      already exited. */
  function Abandon(procs: seq<Entry>, i: int, init: nat): (r: seq<Entry>)
    ensures |r| == |procs|
    ensures forall k :: 0 <= k < |r| ==>
      r[k] == (if HasZombieChild(procs, i) then Woken(Adopted(procs[k], i, init), OnProc(init)) else Adopted(procs[k], i, init))
  {
    var adopted := seq(|procs|, k requires 0 <= k < |procs| => Adopted(procs[k], i, init));
    if HasZombieChild(procs, i) then Wakeup(adopted, OnProc(init)) else adopted
  }

  function FirstPid(procs: seq<Entry>, pid: int, k: nat): (r: Option<nat>)
    requires k <= |procs|
    ensures r.Some? ==> k <= r.value < |procs| && procs[r.value].pid == pid
    decreases |procs| - k
  {
    if k == |procs| then None else if procs[k].pid == pid then Some(k) else FirstPid(procs, pid, k + 1)
  }

  // ---------------------------------------------------------------- steps

  /** sched on CPU c; None is panic("sched running"). The process it switches to clears its
      own chan before it releases the lock. */
  function Sched(s: Sys, c: nat): Option<Sys>
    requires c < |s.cpus|
  {
    var i := s.cpus[c];
    if 0 <= i < |s.procs| && s.procs[i].state == Running then None
    else
      match RoundRobin(s.procs, s.rrindex)
      case Some(k) =>
        Some(s.(procs := s.procs[k := s.procs[k].(state := Running, chan := NoChan)], rrindex := k, cpus := s.cpus[c := k]))
      case None => Some(s.(cpus := s.cpus[c := -1]))
  }

  datatype Step =
    | ForkAlloc(c: nat)
    | ForkFail(c: nat)
    | ForkParent(c: nat)
    | ForkDone(c: nat)
    | Exit(c: nat)
    | Wait(c: nat)
    | Sleep(c: nat, id: int)
    | Yield(c: nat)
    | Reschedule(c: nat)
    | WakeupOther(id: int)
    | Kill(pid: int)

  /** CPU c runs process i. */
  predicate Runs(s: Sys, c: nat, i: int) {
    c < |s.cpus| && s.cpus[c] == i && 0 <= i < |s.procs| && |s.forks| == |s.procs|
  }

  /** The CPU runs a process at that point of its code: fork's steps come in order and no
      other call starts before fork returns; init does not exit. */
  predicate Enabled(s: Sys, step: Step) {
    match step
    case ForkAlloc(c) => c < |s.cpus| && Runs(s, c, s.cpus[c]) && s.forks[s.cpus[c]].NoFork?
    case ForkFail(c) => c < |s.cpus| && Runs(s, c, s.cpus[c]) && s.forks[s.cpus[c]].Allocated? && s.forks[s.cpus[c]].child < |s.procs|
    case ForkParent(c) => c < |s.cpus| && Runs(s, c, s.cpus[c]) && s.forks[s.cpus[c]].Allocated? && s.forks[s.cpus[c]].child < |s.procs|
    case ForkDone(c) => c < |s.cpus| && Runs(s, c, s.cpus[c]) && s.forks[s.cpus[c]].Parented? && s.forks[s.cpus[c]].child < |s.procs|
    case Exit(c) => c < |s.cpus| && Runs(s, c, s.cpus[c]) && s.forks[s.cpus[c]].NoFork? && s.cpus[c] != s.init
    case Wait(c) => c < |s.cpus| && Runs(s, c, s.cpus[c]) && s.forks[s.cpus[c]].NoFork?
    case Sleep(c, _) => c < |s.cpus| && Runs(s, c, s.cpus[c]) && s.forks[s.cpus[c]].NoFork?
    case Yield(c) => c < |s.cpus| && Runs(s, c, s.cpus[c])
    case Reschedule(c) => c < |s.cpus| && (s.cpus[c] == -1 || Runs(s, c, s.cpus[c]))
    case WakeupOther(_) => true
    case Kill(_) => true
  }

  function SetState(s: Sys, i: nat, state: ProcState): Sys
    requires i < |s.procs|
  {
    s.(procs := s.procs[i := s.procs[i].(state := state)])
  }

  function ExitTable(s: Sys, i: nat): seq<Entry>
    requires i < |s.procs|
  {
    var woken := Wakeup(s.procs, if s.procs[i].parent >= 0 then OnProc(s.procs[i].parent) else NoChan);
    var abandoned := Abandon(woken, i, s.init);
    abandoned[i := abandoned[i].(state := Zombie)]
  }

  /** One turn of wait's loop. */
  function WaitStep(s: Sys, c: nat): Option<Sys>
    requires c < |s.cpus| && Runs(s, c, s.cpus[c])
  {
    var i := s.cpus[c];
    match FirstZombieChild(s.procs, i, 0)
    case Some(z) =>
      Some(s.(procs := s.procs[z := Entry(Unused, 0, -1, s.procs[z].chan, false)], reaped := s.reaped + [s.procs[z].pid]))
    case None =>
      if !HasChild(s.procs, i) || s.procs[i].killed then Some(s)
      else Sched(s.(procs := s.procs[i := s.procs[i].(state := Sleeping, chan := OnProc(i))]), c)
  }

  /** None is a panic. */
  function Apply(s: Sys, step: Step): Option<Sys>
    requires Enabled(s, step)
  {
    match step
    case ForkAlloc(c) =>
      var i := s.cpus[c];
      (match FirstUnused(s.procs, 0)
       case None => Some(s)
       case Some(k) =>
         Some(s.(procs := s.procs[k := s.procs[k].(state := Embryo, pid := s.nextpid)], nextpid := s.nextpid + 1, forks := s.forks[i := Allocated(k)])))
    case ForkFail(c) =>
      var i := s.cpus[c];
      Some(SetState(s, s.forks[i].child, Unused).(forks := s.forks[i := NoFork]))
    case ForkParent(c) =>
      var i := s.cpus[c];
      var k := s.forks[i].child;
      Some(s.(procs := s.procs[k := s.procs[k].(parent := i)], forks := s.forks[i := Parented(k)]))
    case ForkDone(c) =>
      var i := s.cpus[c];
      Some(SetState(s, s.forks[i].child, Runnable).(forks := s.forks[i := NoFork]))
    case Exit(c) =>
      var i := s.cpus[c];
      Sched(s.(procs := ExitTable(s, i), exited := s.exited + [s.procs[i].pid]), c)
    case Wait(c) => WaitStep(s, c)
    case Sleep(c, id) =>
      var i := s.cpus[c];
      Sched(s.(procs := s.procs[i := s.procs[i].(state := Sleeping, chan := OnOther(id))]), c)
    case Yield(c) => Sched(SetState(s, s.cpus[c], Runnable), c)
    case Reschedule(c) =>
      if s.cpus[c] == -1 then Sched(s, c)
      else if s.procs[s.cpus[c]].state != Running then None
      else Sched(SetState(s, s.cpus[c], Runnable), c)
    case WakeupOther(id) => Some(s.(procs := Wakeup(s.procs, OnOther(id))))
    case Kill(pid) =>
      (match FirstPid(s.procs, pid, 0)
       case None => Some(s)
       case Some(k) =>
         var e := s.procs[k].(killed := true);
         Some(s.(procs := s.procs[k := if e.state == Sleeping then e.(state := Runnable) else e])))
  }
}
